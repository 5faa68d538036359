/**
 * lbutils/db.py: the older variant of the query builders. Its quick search
 * has no numeric fields; its structured builder recognises `q__d__` keys as
 * dates, and stores a parameter that is neither a string nor None under its
 * full `q__` key. Date parsing (`strptime(v, "%Y-%m-%d")`) is a parameter:
 * `None` stands for the `ValueError` it raises on text that is not a date.
 */
module Db {
  import opened Strings
  import opened Python
  import opened Query
  import Qs

  const DatePrefix: string := "d__"

  // ----- quick search (db.py:28-35) -----

  /** What `gen_quick_query_params` returns: `Q()` for falsy values, else the
      OR of one substring lookup per field. Any truthy value is accepted. */
  function QuickQuery(value: Value, fields: seq<string>): Q {
    if !Truthy(value) then Empty else AnyOf(Qs.ContainsLeaves(value, fields))
  }

  method GenQuickQueryParams(value: Value, fields: seq<string>) returns (q: Q)
    ensures q == QuickQuery(value, fields)
  {
    q := Empty;
    if !Truthy(value) {
      return;
    }
    ghost var text := Qs.ContainsLeaves(value, fields);
    for i := 0 to |fields|
      invariant q == AnyOf(text[..i])
    {
      q := QOr(q, Leaf(fields[i] + "__icontains", Plain(value)));
      assert text[..i + 1][..i] == text[..i];
    }
    assert text[..|fields|] == text;
  }

  /** On text the older quick search is the newer one without numeric fields;
      on a truthy non-string it still builds the substring lookups, where the
      newer one raises. */
  lemma QuickQueryAgrees(value: Value, fields: seq<string>)
    ensures value.Str? || !Truthy(value) ==> Qs.QuickQuery(value, fields, []) == Ok(QuickQuery(value, fields))
    ensures Truthy(value) && !value.Str? ==> Qs.QuickQuery(value, fields, []).Raised?
  {
    if Truthy(value) && value.Str? {
      var text := Qs.ContainsLeaves(value, fields);
      assert text + Qs.ExactLeaves(value, []) == text;
    }
  }

  // ----- structured parameters (db.py:38-71) -----

  /** The classification of one parameter; only a date that does not parse
      raises. */
  function Classify(k: string, v: Value, parseDate: string -> Option<CalendarDate>): (r: Result<Qs.Effect>)
    ensures r.Raised? ==>
              && r.error == ValueError && v.Str? && StartsWith(k, Qs.QueryPrefix)
              && StartsWith(k[|Qs.QueryPrefix|..], DatePrefix)
    ensures r.Ok? && r.value.Conjoin? ==> StartsWith(k, Qs.QueryPrefix) && v.Str?
    ensures v == NoneVal || v == Str("") ==> r == Ok(Qs.Skip)
  {
    if !StartsWith(k, Qs.QueryPrefix) then Ok(Qs.Skip)
    else if !v.Str? then (if v.NoneVal? then Ok(Qs.Skip) else Ok(Qs.Put(k, Plain(v))))
    else if v.s == "" then Ok(Qs.Skip)
    else
      var s := Normalize(v.s);
      var key := k[|Qs.QueryPrefix|..];
      if StartsWith(key, DatePrefix) then
        match parseDate(s)
        case None => Raised(ValueError)
        case Some(d) => Ok(Qs.Put(key[|DatePrefix|..], DateArg(d)))
      else if StartsWith(s, Qs.FieldRefPrefix) then Ok(Qs.Put(key, FieldRef(s[|Qs.FieldRefPrefix|..])))
      else if EndsWith(key, Qs.InSuffix) then Ok(Qs.Put(key, Tokens(CommaTokens(s))))
      else if ',' in s then Ok(Qs.Conjoin(AnyOf(TokenLeaves(key, CommaTokens(s)))))
      else Ok(Qs.Put(key, Coerce(s)))
  }

  /** What `gen_query_params` returns or raises: the first parameter that
      raises ends the loop. */
  function Build(qdata: Qs.Items, parseDate: string -> Option<CalendarDate>): Result<Qs.Params>
    decreases |qdata|
  {
    if |qdata| == 0 then Ok(Qs.Params(Empty, map[]))
    else
      var last := qdata[|qdata| - 1];
      match Build(qdata[..|qdata| - 1], parseDate)
      case Raised(e) => Raised(e)
      case Ok(p) =>
        match Classify(last.0, last.1, parseDate)
        case Raised(e) => Raised(e)
        case Ok(eff) => Ok(Qs.Apply(p, eff))
  }

  method GenQueryParams(qdata: Qs.Items, parseDate: string -> Option<CalendarDate>)
    returns (r: Result<Qs.Params>)
    ensures r == Build(qdata, parseDate)
  {
    var q, kw := Empty, map[];
    for i := 0 to |qdata|
      invariant Build(qdata[..i], parseDate) == Ok(Qs.Params(q, kw))
    {
      assert qdata[..i + 1][..i] == qdata[..i];
      var (k, v) := qdata[i];
      if !StartsWith(k, Qs.QueryPrefix) {
        continue;
      }
      if !v.Str? {
        if !v.NoneVal? {
          kw := kw[k := Plain(v)];
        }
        continue;
      }
      if v.s == "" {
        continue;
      }
      var s := Normalize(v.s);
      var key := k[|Qs.QueryPrefix|..];
      if StartsWith(key, DatePrefix) {
        var date := parseDate(s);
        if date.None? {
          BuildRaisedPrefix(qdata, i + 1, parseDate);
          return Raised(ValueError);
        }
        kw := kw[key[|DatePrefix|..] := DateArg(date.value)];
        continue;
      }
      var arg := Plain(Str(s));
      if StartsWith(s, Qs.FieldRefPrefix) {
        arg := FieldRef(s[|Qs.FieldRefPrefix|..]);
      } else if EndsWith(key, Qs.InSuffix) {
        arg := Tokens(CommaTokens(s));
      } else if ',' in s {
        var group := Empty;
        var tokens := CommaTokens(s);
        ghost var leaves := TokenLeaves(key, tokens);
        for j := 0 to |tokens|
          invariant group == AnyOf(leaves[..j])
        {
          group := QOr(group, Leaf(key, Plain(Str(tokens[j]))));
          assert leaves[..j + 1][..j] == leaves[..j];
        }
        assert leaves[..|tokens|] == leaves;
        q := QAnd(q, group);
        continue;
      }
      if arg.Plain? && arg.v.Str? {
        arg := Coerce(arg.v.s);
      }
      kw := kw[key := arg];
    }
    assert qdata[..|qdata|] == qdata;
    return Ok(Qs.Params(q, kw));
  }

  /** Once a prefix of the parameters raises, the whole loop raises the same. */
  lemma {:induction false} BuildRaisedPrefix(qdata: Qs.Items, n: nat, parseDate: string -> Option<CalendarDate>)
    requires n <= |qdata| && Build(qdata[..n], parseDate).Raised?
    ensures Build(qdata, parseDate) == Build(qdata[..n], parseDate)
    decreases |qdata|
  {
    if n < |qdata| {
      var init := qdata[..|qdata| - 1];
      assert init[..n] == qdata[..n];
      BuildRaisedPrefix(init, n, parseDate);
    } else {
      assert qdata[..n] == qdata;
    }
  }

  /** A parameter whose value is a string or None and whose key is not a date
      key is classified as the newer builder classifies it. */
  predicate Portable(k: string, v: Value) {
    (v.Str? || v.NoneVal?) && !(StartsWith(k, Qs.QueryPrefix) && StartsWith(k[|Qs.QueryPrefix|..], DatePrefix))
  }

  lemma ClassifyAgrees(k: string, v: Value, parseDate: string -> Option<CalendarDate>)
    requires Portable(k, v)
    ensures Classify(k, v, parseDate) == Ok(Qs.Classify(k, v))
  {
  }

  /** A `q__d__` parameter with text is a date under the key without both
      prefixes, or raises `ValueError` when the text is not a date. */
  lemma ClassifyDate(k: string, s: string, parseDate: string -> Option<CalendarDate>)
    requires StartsWith(k, Qs.QueryPrefix + DatePrefix) && s != ""
    ensures var key := k[|Qs.QueryPrefix + DatePrefix|..];
      match parseDate(Normalize(s))
      case None => Classify(k, Str(s), parseDate) == Raised(ValueError)
      case Some(d) => Classify(k, Str(s), parseDate) == Ok(Qs.Put(key, DateArg(d)))
  {
    var key := k[|Qs.QueryPrefix|..];
    assert k[..|Qs.QueryPrefix|] == Qs.QueryPrefix;
    assert key[..|DatePrefix|] == k[|Qs.QueryPrefix|..|Qs.QueryPrefix + DatePrefix|];
    assert key[|DatePrefix|..] == k[|Qs.QueryPrefix + DatePrefix|..];
  }

  /** A value that is neither a string nor None is stored under the full key,
      prefix included, unlike the newer builder, which strips the prefix. */
  lemma ClassifyKeepsPrefix(k: string, v: Value, parseDate: string -> Option<CalendarDate>)
    requires StartsWith(k, Qs.QueryPrefix) && !v.Str? && !v.NoneVal?
    ensures Classify(k, v, parseDate) == Ok(Qs.Put(k, Plain(v)))
    ensures Qs.Classify(k, v) == Qs.Put(k[|Qs.QueryPrefix|..], Plain(v))
    ensures k != k[|Qs.QueryPrefix|..]
  {
  }

  /** The input that shows it: `{"q__price": 100}` asks for `price = 100` but
      becomes the keyword `q__price`, which names no field. */
  lemma NumericParameterKeepsPrefix(parseDate: string -> Option<CalendarDate>)
    ensures Build([("q__price", Int(100))], parseDate) == Ok(Qs.Params(Empty, map["q__price" := Plain(Int(100))]))
    ensures Qs.Build([("q__price", Int(100))]) == Qs.Params(Empty, map["price" := Plain(Int(100))])
  {
    ClassifyKeepsPrefix("q__price", Int(100), parseDate);
    assert [("q__price", Int(100))][..0] == [];
  }

  /** The older builder raises exactly when some date parameter fails to parse. */
  lemma {:induction false} BuildRaises(qdata: Qs.Items, parseDate: string -> Option<CalendarDate>)
    ensures Build(qdata, parseDate).Raised? <==>
              exists i :: 0 <= i < |qdata| && Classify(qdata[i].0, qdata[i].1, parseDate).Raised?
    decreases |qdata|
  {
    var n := |qdata|;
    if n > 0 {
      var init := qdata[..n - 1];
      BuildRaises(init, parseDate);
      assert forall i :: 0 <= i < n - 1 ==> init[i] == qdata[i];
      if exists i :: 0 <= i < n && Classify(qdata[i].0, qdata[i].1, parseDate).Raised? {
        var i :| 0 <= i < n && Classify(qdata[i].0, qdata[i].1, parseDate).Raised?;
        if i < n - 1 {
          assert Classify(init[i].0, init[i].1, parseDate).Raised?;
        }
      }
    }
  }

  /** On portable parameters the older builder builds what the newer one does. */
  lemma {:induction false} BuildAgrees(qdata: Qs.Items, parseDate: string -> Option<CalendarDate>)
    requires forall i :: 0 <= i < |qdata| ==> Portable(qdata[i].0, qdata[i].1)
    ensures Build(qdata, parseDate) == Ok(Qs.Build(qdata))
    decreases |qdata|
  {
    var n := |qdata|;
    if n > 0 {
      var init := qdata[..n - 1];
      assert forall i :: 0 <= i < n - 1 ==> init[i] == qdata[i];
      BuildAgrees(init, parseDate);
      ClassifyAgrees(qdata[n - 1].0, qdata[n - 1].1, parseDate);
    }
  }

  // ----- do_filter (db.py:15-25) -----

  /** The collection `do_filter` returns: both filters sit in one `try`, so
      whatever raises (a `filter` call or a date that does not parse) leaves
      the collection as the last successful `filter` left it. */
  function Filtered<C>(qs: C, qdata: Qs.Items, fields: seq<string>,
                       parseDate: string -> Option<CalendarDate>,
                       filter: (C, Q, map<string, Arg>) -> Result<C>): C
  {
    match filter(qs, QuickQuery(Qs.ItemGet(qdata, Qs.QuickSearchKey), fields), map[])
    case Raised(_) => qs
    case Ok(first) =>
      match Build(qdata, parseDate)
      case Raised(_) => first
      case Ok(p) =>
        match filter(first, p.q, p.kw)
        case Raised(_) => first
        case Ok(second) => second
  }

  method DoFilter<C>(qs: C, qdata: Qs.Items, fields: seq<string>,
                     parseDate: string -> Option<CalendarDate>,
                     filter: (C, Q, map<string, Arg>) -> Result<C>)
    returns (r: C)
    ensures r == Filtered(qs, qdata, fields, parseDate, filter)
  {
    r := qs;
    var quick := GenQuickQueryParams(Qs.ItemGet(qdata, Qs.QuickSearchKey), fields);
    var first := filter(r, quick, map[]);
    if first.Raised? {
      return;
    }
    r := first.value;
    var p := GenQueryParams(qdata, parseDate);
    if p.Raised? {
      return;
    }
    var second := filter(r, p.value.q, p.value.kw);
    if second.Raised? {
      return;
    }
    r := second.value;
  }

  /** Over a collection whose `filter` is exact, a date that does not parse
      still leaves the quick search applied, and otherwise the result keeps
      exactly the records matching both the quick search and the structured
      parameters. */
  lemma DoFilterSelects<R(!new)>(qs: seq<R>, qdata: Qs.Items, fields: seq<string>,
                                parseDate: string -> Option<CalendarDate>,
                                filter: (seq<R>, Q, map<string, Arg>) -> Result<seq<R>>,
                                sat: (R, string, Arg) -> bool)
    requires Qs.ExactFilter(filter, sat)
    ensures var quick := QuickQuery(Qs.ItemGet(qdata, Qs.QuickSearchKey), fields);
      var r := Filtered(qs, qdata, fields, parseDate, filter);
      && (Build(qdata, parseDate).Raised? ==> r == Qs.Select(qs, quick, map[], sat))
      && (Build(qdata, parseDate).Ok? ==>
            var p := Build(qdata, parseDate).value;
            forall x :: x in r <==> x in qs && Qs.Matches(x, quick, map[], sat) && Qs.Matches(x, p.q, p.kw, sat))
  {
    var quick := QuickQuery(Qs.ItemGet(qdata, Qs.QuickSearchKey), fields);
    var first := Qs.Select(qs, quick, map[], sat);
    assert filter(qs, quick, map[]) == Ok(first);
    Qs.SelectMembers(qs, quick, map[], sat);
    if Build(qdata, parseDate).Ok? {
      var p := Build(qdata, parseDate).value;
      assert filter(first, p.q, p.kw) == Ok(Qs.Select(first, p.q, p.kw, sat));
      Qs.SelectMembers(first, p.q, p.kw, sat);
    }
  }
}
