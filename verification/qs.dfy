/**
 * lbutils/qs.py: `do_filter` and the two builders behind it. A request's
 * query parameters become a quick-search `Q` (one case-insensitive substring
 * lookup per text field, plus exact lookups on numeric fields for all-digit
 * text) and a structured pair `(q, kw)` built from the `q__` keys. The
 * collection's `filter` is a parameter that may raise; `do_filter` swallows
 * what it raises and returns the collection as the last successful `filter`
 * left it.
 */
module Qs {
  import opened Strings
  import opened Python
  import opened Query

  /** The parameters of a request, as `qdata.items()` lists them. */
  type Items = seq<(string, Value)>

  const QuickSearchKey: string := "q_quick_search_kw"
  const QueryPrefix: string := "q__"
  const FieldRefPrefix: string := "F__"
  const InSuffix: string := "__in"

  /** `qdata.get(k)`: the value under `k`, or None. */
  function ItemGet(qdata: Items, k: string): Value
    decreases |qdata|
  {
    if |qdata| == 0 then NoneVal
    else if qdata[0].0 == k then qdata[0].1
    else ItemGet(qdata[1..], k)
  }

  // ----- quick search (qs.py:68-79) -----

  /** `Q(**{"<field>__icontains": value})` for each text field, in order. */
  function ContainsLeaves(value: Value, fields: seq<string>): (r: seq<Q>)
    ensures |r| == |fields| && AllLeaves(r)
  {
    seq(|fields|, i requires 0 <= i < |fields| => Leaf(fields[i] + "__icontains", Plain(value)))
  }

  /** `Q(**{field: value})` for each numeric field, in order. */
  function ExactLeaves(value: Value, fields: seq<string>): (r: seq<Q>)
    ensures |r| == |fields| && AllLeaves(r)
  {
    seq(|fields|, i requires 0 <= i < |fields| => Leaf(fields[i], Plain(value)))
  }

  /** What `__gen_quick_query_params` returns: `Q()` for falsy text; for other
      text the OR of its leaves; a truthy value that is not a string has no
      `isdigit` and raises once the substring leaves are built. */
  function QuickQuery(value: Value, fields: seq<string>, intFields: seq<string>): Result<Q> {
    if !Truthy(value) then Ok(Empty)
    else if !value.Str? then Raised(AttributeError)
    else if IsDigits(value.s) then Ok(AnyOf(ContainsLeaves(value, fields) + ExactLeaves(value, intFields)))
    else Ok(AnyOf(ContainsLeaves(value, fields)))
  }

  method GenQuickQueryParams(value: Value, fields: seq<string>, intFields: seq<string>)
    returns (r: Result<Q>)
    ensures r == QuickQuery(value, fields, intFields)
  {
    var q := Empty;
    if !Truthy(value) {
      return Ok(q);
    }
    ghost var text := ContainsLeaves(value, fields);
    for i := 0 to |fields|
      invariant q == AnyOf(text[..i])
    {
      q := QOr(q, Leaf(fields[i] + "__icontains", Plain(value)));
      assert text[..i + 1][..i] == text[..i];
    }
    assert text[..|fields|] == text;
    if !value.Str? {
      return Raised(AttributeError);
    }
    if IsDigits(value.s) {
      ghost var numeric := ExactLeaves(value, intFields);
      assert text + numeric[..0] == text;
      for j := 0 to |intFields|
        invariant q == AnyOf(text + numeric[..j])
      {
        ghost var before := text + numeric[..j];
        ghost var after := text + numeric[..j + 1];
        assert after[..|after| - 1] == before && after[|after| - 1] == numeric[j];
        assert AnyOf(after) == QOr(AnyOf(before), numeric[j]);
        q := QOr(q, Leaf(intFields[j], Plain(value)));
      }
      assert numeric[..|intFields|] == numeric;
    }
    return Ok(q);
  }

  /** Empty or missing quick-search text filters nothing out. Other text is
      matched by a record exactly when one of the text fields contains it, or
      (for all-digit text only) one of the numeric fields equals it; with no
      field to match at all the result is `Q()` again. */
  lemma QuickQueryMeaning(value: Value, fields: seq<string>, intFields: seq<string>,
                          holds: (string, Arg) -> bool)
    ensures !Truthy(value) ==> QuickQuery(value, fields, intFields) == Ok(Empty)
    ensures Truthy(value) && value.Str? ==>
      && QuickQuery(value, fields, intFields).Ok?
      && (Eval(QuickQuery(value, fields, intFields).value, holds) <==>
            || (fields == [] && (!IsDigits(value.s) || intFields == []))
            || (exists f :: f in fields && holds(f + "__icontains", Plain(value)))
            || (IsDigits(value.s) && exists f :: f in intFields && holds(f, Plain(value))))
  {
    if Truthy(value) && value.Str? {
      var text := ContainsLeaves(value, fields);
      var numeric := if IsDigits(value.s) then ExactLeaves(value, intFields) else [];
      var leaves := text + numeric;
      if !IsDigits(value.s) {
        assert leaves == text;
      }
      assert AnyOf(leaves) == QuickQuery(value, fields, intFields).value;
      AnyOfEval(leaves, holds);
      SomeLeafHoldsAppend(text, numeric, holds);
      ContainsLeavesHold(value, fields, holds);
      ExactLeavesHold(value, intFields, holds);
    }
  }

  /** A substring leaf holds exactly when the lookup on its field holds. */
  lemma ContainsLeavesHold(value: Value, fields: seq<string>, holds: (string, Arg) -> bool)
    ensures SomeLeafHolds(ContainsLeaves(value, fields), holds) <==>
              exists f :: f in fields && holds(f + "__icontains", Plain(value))
  {
    var ls := ContainsLeaves(value, fields);
    if SomeLeafHolds(ls, holds) {
      var i :| 0 <= i < |ls| && ls[i].Leaf? && holds(ls[i].path, ls[i].arg);
      assert fields[i] in fields;
    }
    if exists f :: f in fields && holds(f + "__icontains", Plain(value)) {
      var f :| f in fields && holds(f + "__icontains", Plain(value));
      var i :| 0 <= i < |fields| && fields[i] == f;
      assert ls[i].Leaf? && holds(ls[i].path, ls[i].arg);
    }
  }

  /** An exact leaf holds exactly when the lookup on its field holds. */
  lemma ExactLeavesHold(value: Value, fields: seq<string>, holds: (string, Arg) -> bool)
    ensures SomeLeafHolds(ExactLeaves(value, fields), holds) <==>
              exists f :: f in fields && holds(f, Plain(value))
  {
    var ls := ExactLeaves(value, fields);
    if SomeLeafHolds(ls, holds) {
      var i :| 0 <= i < |ls| && ls[i].Leaf? && holds(ls[i].path, ls[i].arg);
      assert fields[i] in fields;
    }
    if exists f :: f in fields && holds(f, Plain(value)) {
      var f :| f in fields && holds(f, Plain(value));
      var i :| 0 <= i < |fields| && fields[i] == f;
      assert ls[i].Leaf? && holds(ls[i].path, ls[i].arg);
    }
  }

  /** Non-empty text gives one substring disjunct per text field in list
      order, followed by the exact numeric disjuncts, which are there if and
      only if the text is all digits (and there is a numeric field). */
  lemma QuickQueryShape(value: Value, fields: seq<string>, intFields: seq<string>)
    requires Truthy(value) && value.Str?
    ensures var q := QuickQuery(value, fields, intFields).value;
      && IsDisjunction(q)
      && |Leaves(q)| >= |fields|
      && Leaves(q)[..|fields|] == ContainsLeaves(value, fields)
      && (|Leaves(q)| > |fields| <==> IsDigits(value.s) && intFields != [])
      && (IsDigits(value.s) ==> Leaves(q)[|fields|..] == ExactLeaves(value, intFields))
  {
    var text := ContainsLeaves(value, fields);
    if IsDigits(value.s) {
      var leaves := text + ExactLeaves(value, intFields);
      assert AllLeaves(leaves);
      AnyOfShape(leaves);
      assert leaves[..|fields|] == text;
    } else {
      AnyOfShape(text);
    }
  }

  // ----- structured parameters (qs.py:82-109) -----

  /** What one `q__` parameter contributes: nothing, a keyword argument of the
      final `filter` call, or an OR group AND-ed into the predicate. */
  datatype Effect = Skip | Put(key: string, arg: Arg) | Conjoin(group: Q)

  /** The pair `(q, kw_query_params)`. */
  datatype Params = Params(q: Q, kw: map<string, Arg>)

  /** The classification of one parameter, in the order the code tests it. */
  function Classify(k: string, v: Value): (e: Effect)
    ensures e.Put? ==> StartsWith(k, QueryPrefix) && e.key == k[|QueryPrefix|..]
    ensures e.Conjoin? ==> StartsWith(k, QueryPrefix) && v.Str?
    ensures v == NoneVal || v == Str("") ==> e == Skip
  {
    if !StartsWith(k, QueryPrefix) then Skip
    else
      var key := k[|QueryPrefix|..];
      if !v.Str? then (if v.NoneVal? then Skip else Put(key, Plain(v)))
      else if v.s == "" then Skip
      else
        var s := Normalize(v.s);
        if StartsWith(s, FieldRefPrefix) then Put(key, FieldRef(s[|FieldRefPrefix|..]))
        else if EndsWith(key, InSuffix) then Put(key, Tokens(CommaTokens(s)))
        else if ',' in s then Conjoin(AnyOf(TokenLeaves(key, CommaTokens(s))))
        else Put(key, Coerce(s))
  }

  function Apply(p: Params, e: Effect): Params {
    match e
    case Skip => p
    case Put(k, a) => p.(kw := p.kw[k := a])
    case Conjoin(g) => p.(q := QAnd(p.q, g))
  }

  /** What `__gen_query_params` returns: the parameters applied in order. */
  function Build(qdata: Items): Params
    decreases |qdata|
  {
    if |qdata| == 0 then Params(Empty, map[])
    else
      var last := qdata[|qdata| - 1];
      Apply(Build(qdata[..|qdata| - 1]), Classify(last.0, last.1))
  }

  method GenQueryParams(qdata: Items) returns (q: Q, kw: map<string, Arg>)
    ensures Params(q, kw) == Build(qdata)
  {
    q, kw := Empty, map[];
    for i := 0 to |qdata|
      invariant Params(q, kw) == Build(qdata[..i])
    {
      assert qdata[..i + 1][..i] == qdata[..i];
      var (k, v) := qdata[i];
      if !StartsWith(k, QueryPrefix) {
        continue;
      }
      var key := k[|QueryPrefix|..];
      if !v.Str? {
        if !v.NoneVal? {
          kw := kw[key := Plain(v)];
        }
        continue;
      }
      if v.s == "" {
        continue;
      }
      var s := Normalize(v.s);
      var arg := Plain(Str(s));
      if StartsWith(s, FieldRefPrefix) {
        arg := FieldRef(s[|FieldRefPrefix|..]);
      } else if EndsWith(key, InSuffix) {
        arg := Tokens(CommaTokens(s));
      } else if ',' in s {
        var group := Empty;
        var tokens := CommaTokens(s);
        ghost var leaves := TokenLeaves(key, tokens);
        for j := 0 to |tokens|
          invariant group == AnyOf(leaves[..j])
        {
          group := QOr(group, Leaf(key, Plain(Str(tokens[j]))));
          assert leaves[..j + 1][..j] == leaves[..j];
        }
        assert leaves[..|tokens|] == leaves;
        q := QAnd(q, group);
        continue;
      }
      if arg.Plain? && arg.v.Str? {
        arg := Coerce(arg.v.s);
      }
      kw := kw[key := arg];
    }
    assert qdata[..|qdata|] == qdata;
  }

  /** The effect of the `i`-th parameter. */
  function EffectAt(qdata: Items, i: nat): Effect
    requires i < |qdata|
  {
    Classify(qdata[i].0, qdata[i].1)
  }

  /** A keyword argument holds the value of the last parameter that puts that
      key: later parameters overwrite earlier ones, as `kw[k] = v` does. */
  lemma {:induction false} BuildLastPutWins(qdata: Items, i: nat, k: string, a: Arg)
    requires i < |qdata| && EffectAt(qdata, i) == Put(k, a)
    requires forall j :: i < j < |qdata| ==> !(EffectAt(qdata, j).Put? && EffectAt(qdata, j).key == k)
    ensures k in Build(qdata).kw && Build(qdata).kw[k] == a
    decreases |qdata|
  {
    var n := |qdata|;
    var init := qdata[..n - 1];
    if i < n - 1 {
      assert forall j :: 0 <= j < n - 1 ==> EffectAt(init, j) == EffectAt(qdata, j);
      BuildLastPutWins(init, i, k, a);
      assert !(EffectAt(qdata, n - 1).Put? && EffectAt(qdata, n - 1).key == k);
    }
  }

  /** Every keyword argument comes from a parameter that puts that key: no
      other parameter, and in particular no comma OR group, adds one. */
  lemma {:induction false} BuildKwFromPuts(qdata: Items, k: string)
    requires k in Build(qdata).kw
    ensures exists i :: 0 <= i < |qdata| && EffectAt(qdata, i).Put? && EffectAt(qdata, i).key == k
    decreases |qdata|
  {
    var n := |qdata|;
    var init := qdata[..n - 1];
    var e := EffectAt(qdata, n - 1);
    if !(e.Put? && e.key == k) {
      BuildKwFromPuts(init, k);
      var i :| 0 <= i < |init| && EffectAt(init, i).Put? && EffectAt(init, i).key == k;
      assert EffectAt(qdata, i) == EffectAt(init, i);
    }
  }

  /** A record satisfies the built predicate exactly when it satisfies every
      comma OR group; with no group the predicate is `Q()`. */
  lemma {:induction false} BuildPredicateMeaning(qdata: Items, holds: (string, Arg) -> bool)
    ensures Eval(Build(qdata).q, holds) <==>
              forall i :: 0 <= i < |qdata| && EffectAt(qdata, i).Conjoin? ==>
                            Eval(EffectAt(qdata, i).group, holds)
    decreases |qdata|
  {
    var n := |qdata|;
    if n > 0 {
      var init := qdata[..n - 1];
      BuildPredicateMeaning(init, holds);
      assert forall j :: 0 <= j < n - 1 ==> EffectAt(init, j) == EffectAt(qdata, j);
      var e := EffectAt(qdata, n - 1);
      if e.Conjoin? {
        EvalAnd(Build(init).q, e.group, holds);
      }
    }
  }

  /** A comma list that is not an `__in` lookup and not a field reference is
      an OR of `path = token` over its non-empty tokens; a record satisfies it
      when its path equals one of them, and a list of commas only constrains
      nothing. */
  lemma CommaGroupMeaning(k: string, v: Value, holds: (string, Arg) -> bool)
    requires Classify(k, v).Conjoin?
    ensures var tokens := CommaTokens(Normalize(v.s));
      && (Eval(Classify(k, v).group, holds) <==>
            (tokens == [] || exists t :: t in tokens && holds(k[|QueryPrefix|..], Plain(Str(t)))))
      && forall i :: 0 <= i < |tokens| ==> tokens[i] != "" && ',' !in tokens[i]
  {
    OrGroupEval(k[|QueryPrefix|..], CommaTokens(Normalize(v.s)), holds);
  }

  /** A constraint a client may want: `path = arg` as a keyword argument, or
      "path equals one of the tokens" as an OR group. */
  datatype Constraint = Equals(path: string, arg: Arg) | AnyToken(path: string, tokens: seq<string>)

  predicate CleanTokens(tokens: seq<string>) {
    forall i :: 0 <= i < |tokens| ==>
      tokens[i] != "" && ',' !in tokens[i] && FullWidthComma !in tokens[i]
  }

  /** The constraints a single parameter can express. */
  predicate Expressible(c: Constraint) {
    match c
    case Equals(path, FieldRef(name)) => FullWidthComma !in name
    case Equals(path, Tokens(tokens)) =>
      EndsWith(path, InSuffix) && |tokens| >= 1 && CleanTokens(tokens)
      && !StartsWith(Join(",", tokens), FieldRefPrefix)
    case Equals(path, Plain(v)) =>
      (match v
       case NoneVal => false
       case Str(s) =>
         s != "" && ',' !in s && FullWidthComma !in s && !StartsWith(s, FieldRefPrefix)
         && !EndsWith(path, InSuffix) && s != "__True" && s != "__False"
       case Bool(_) => !EndsWith(path, InSuffix)
       case _ => true)
    case Equals(_, DateArg(_)) => false
    case AnyToken(path, tokens) =>
      !EndsWith(path, InSuffix) && |tokens| >= 2 && CleanTokens(tokens)
      && !StartsWith(Join(",", tokens), FieldRefPrefix)
  }

  /** The query parameter a client writes for a constraint. */
  function QueryParam(c: Constraint): (string, Value) {
    match c
    case Equals(path, FieldRef(name)) => (QueryPrefix + path, Str(FieldRefPrefix + name))
    case Equals(path, Tokens(tokens)) => (QueryPrefix + path, Str(Join(",", tokens)))
    case Equals(path, Plain(v)) =>
      (QueryPrefix + path, if v.Bool? then Str(if v.b then "__True" else "__False") else v)
    case Equals(path, DateArg(_)) => (QueryPrefix + path, NoneVal)
    case AnyToken(path, tokens) => (QueryPrefix + path, Str(Join(",", tokens)))
  }

  /** The effect a constraint should have. */
  function Intended(c: Constraint): Effect {
    match c
    case Equals(path, arg) => Put(path, arg)
    case AnyToken(path, tokens) => Conjoin(AnyOf(TokenLeaves(path, tokens)))
  }

  /** The `q__` key of a path. */
  lemma QueryKey(path: string)
    ensures StartsWith(QueryPrefix + path, QueryPrefix) && (QueryPrefix + path)[|QueryPrefix|..] == path
  {
  }

  lemma ClassifyFieldRef(path: string, name: string)
    requires FullWidthComma !in name
    ensures Classify(QueryPrefix + path, Str(FieldRefPrefix + name)) == Put(path, FieldRef(name))
  {
    QueryKey(path);
    var s := FieldRefPrefix + name;
    assert FullWidthComma !in s;
    NormalizeIdentity(s);
    assert s[|FieldRefPrefix|..] == name;
  }

  lemma ClassifyTokenList(path: string, tokens: seq<string>)
    requires Expressible(AnyToken(path, tokens)) || Expressible(Equals(path, Tokens(tokens)))
    ensures var e := Classify(QueryPrefix + path, Str(Join(",", tokens)));
      && (EndsWith(path, InSuffix) ==> e == Put(path, Tokens(tokens)))
      && (!EndsWith(path, InSuffix) ==> e == Conjoin(AnyOf(TokenLeaves(path, tokens))))
  {
    QueryKey(path);
    JoinChars(",", tokens);
    NormalizeIdentity(Join(",", tokens));
    CommaTokensJoin(tokens);
  }

  lemma ClassifyPlain(path: string, v: Value)
    requires Expressible(Equals(path, Plain(v)))
    ensures Classify(QueryParam(Equals(path, Plain(v))).0, QueryParam(Equals(path, Plain(v))).1) == Put(path, Plain(v))
  {
    QueryKey(path);
    if v.Str? {
      NormalizeIdentity(v.s);
    } else if v.Bool? {
      var t := if v.b then "__True" else "__False";
      assert FullWidthComma !in t && ',' !in t;
      NormalizeIdentity(t);
      FirstCharMismatch(t, FieldRefPrefix);
    }
  }

  /** Writing an expressible constraint as a parameter and classifying it gives
      the constraint back: field references are recognised before `__in`
      lists, lists before comma groups, and only plain strings are coerced to
      booleans. */
  lemma ClassifyQueryParam(c: Constraint)
    requires Expressible(c)
    ensures Classify(QueryParam(c).0, QueryParam(c).1) == Intended(c)
  {
    match c
    case Equals(path, FieldRef(name)) => ClassifyFieldRef(path, name);
    case Equals(path, Tokens(tokens)) => ClassifyTokenList(path, tokens);
    case Equals(path, Plain(x)) => ClassifyPlain(path, x);
    case AnyToken(path, tokens) => ClassifyTokenList(path, tokens);
  }

  // The examples below take the parameter text as an argument equal to a
  // literal, which keeps the solver from evaluating `Classify` on literals.

  /** A boolean token on a plain path becomes the boolean itself. */
  lemma ExampleBoolean(v: string)
    requires v == "__False"
    ensures Classify(QueryPrefix + "is_active", Str(v)) == Put("is_active", Plain(Bool(false)))
  {
    LastCharMismatch("is_active", InSuffix);
    ClassifyPlain("is_active", Bool(false));
  }

  /** A digit string stays a string: the builder does not parse numbers. */
  lemma ExampleNumber(v: string)
    requires v == "100"
    ensures Classify(QueryPrefix + "price", Str(v)) == Put("price", Plain(Str("100")))
  {
    LastCharMismatch("price", InSuffix);
    FirstCharMismatch(v, FieldRefPrefix);
    assert ',' !in v && FullWidthComma !in v;
    ClassifyPlain("price", Str(v));
  }

  /** A comma list on an `__in` path becomes a list of strings. */
  lemma ExampleInList(v: string)
    requires v == "book-02,book-03"
    ensures Classify(QueryPrefix + "name__in", Str(v)) == Put("name__in", Tokens(["book-02", "book-03"]))
  {
    var tokens := ["book-02", "book-03"];
    JoinTwo(",", "book-02", "book-03");
    assert v == Join(",", tokens);
    FirstCharMismatch(v, FieldRefPrefix);
    assert CleanTokens(tokens);
    assert EndsWith("name__in", InSuffix);
    ClassifyTokenList("name__in", tokens);
  }

  /** An `F__` value becomes a reference to another field. */
  lemma ExampleFieldRef(v: string)
    requires v == "F__name"
    ensures Classify(QueryPrefix + "name__gt", Str(v)) == Put("name__gt", FieldRef("name"))
  {
    assert FullWidthComma !in "name";
    assert v == FieldRefPrefix + "name";
    ClassifyFieldRef("name__gt", "name");
  }

  /** A comma list on any other path becomes an OR group, not a keyword. */
  lemma ExampleCommaGroup(v: string)
    requires v == "ook-02,ook-03"
    ensures Classify(QueryPrefix + "name__icontains", Str(v))
            == Conjoin(Or(Leaf("name__icontains", Plain(Str("ook-02"))), Leaf("name__icontains", Plain(Str("ook-03")))))
  {
    var path := "name__icontains";
    var tokens := ["ook-02", "ook-03"];
    JoinTwo(",", "ook-02", "ook-03");
    assert v == Join(",", tokens);
    FirstCharMismatch(v, FieldRefPrefix);
    assert CleanTokens(tokens);
    LastCharMismatch(path, InSuffix);
    ClassifyTokenList(path, tokens);
    var a, b := Leaf(path, Plain(Str("ook-02"))), Leaf(path, Plain(Str("ook-03")));
    assert TokenLeaves(path, tokens) == [a, b];
    AnyOfTwo(a, b);
  }

  // ----- do_filter (qs.py:45-65) -----

  /** The collection `do_filter` returns, given what the collection's `filter`
      does: each `filter` call that raises leaves the collection as the last
      successful call left it, and nothing is raised to the caller. */
  function Filtered<C>(qs: C, qdata: Items, fields: seq<string>, intFields: seq<string>,
                       filter: (C, Q, map<string, Arg>) -> Result<C>): C
  {
    match QuickQuery(ItemGet(qdata, QuickSearchKey), fields, intFields)
    case Raised(_) => qs
    case Ok(quick) =>
      match filter(qs, quick, map[])
      case Raised(_) => qs
      case Ok(first) =>
        var p := Build(qdata);
        match filter(first, p.q, p.kw)
        case Raised(_) => first
        case Ok(second) => second
  }

  method DoFilter<C>(qs: C, qdata: Items, fields: seq<string>, intFields: seq<string>,
                     filter: (C, Q, map<string, Arg>) -> Result<C>)
    returns (r: C)
    ensures r == Filtered(qs, qdata, fields, intFields, filter)
  {
    r := qs;
    var quick := GenQuickQueryParams(ItemGet(qdata, QuickSearchKey), fields, intFields);
    if quick.Raised? {
      return;
    }
    var first := filter(r, quick.value, map[]);
    if first.Raised? {
      return;
    }
    r := first.value;
    var q, kw := GenQueryParams(qdata);
    var second := filter(r, q, kw);
    if second.Raised? {
      return;
    }
    r := second.value;
  }

  /** A record, known by the single lookups it satisfies, passes `filter(q, **kw)`. */
  predicate Matches<R>(x: R, q: Q, kw: map<string, Arg>, sat: (R, string, Arg) -> bool) {
    Eval(q, (p, a) => sat(x, p, a)) && KwHolds(kw, (p, a) => sat(x, p, a))
  }

  /** The records of `c` that pass `filter(q, **kw)`, in order. */
  function Select<R>(c: seq<R>, q: Q, kw: map<string, Arg>, sat: (R, string, Arg) -> bool): seq<R>
    decreases |c|
  {
    if |c| == 0 then []
    else (if Matches(c[0], q, kw, sat) then [c[0]] else []) + Select(c[1..], q, kw, sat)
  }

  /** A collection whose `filter` never raises and keeps exactly the matching records. */
  ghost predicate ExactFilter<R(!new)>(filter: (seq<R>, Q, map<string, Arg>) -> Result<seq<R>>,
                           sat: (R, string, Arg) -> bool) {
    forall c, q, kw :: filter(c, q, kw) == Ok(Select(c, q, kw, sat))
  }

  lemma {:induction false} SelectMembers<R>(c: seq<R>, q: Q, kw: map<string, Arg>, sat: (R, string, Arg) -> bool)
    ensures forall x :: x in Select(c, q, kw, sat) <==> x in c && Matches(x, q, kw, sat)
    decreases |c|
  {
    if |c| > 0 {
      SelectMembers(c[1..], q, kw, sat);
      assert c == [c[0]] + c[1..];
    }
  }

  lemma {:induction false} SelectKeepsAll<R>(c: seq<R>, q: Q, kw: map<string, Arg>, sat: (R, string, Arg) -> bool)
    requires forall x :: x in c ==> Matches(x, q, kw, sat)
    ensures Select(c, q, kw, sat) == c
    decreases |c|
  {
    if |c| > 0 {
      SelectKeepsAll(c[1..], q, kw, sat);
      assert c == [c[0]] + c[1..];
    }
  }

  /** Over a collection whose `filter` is exact, `do_filter` keeps exactly the
      records that match the quick search and the structured parameters. */
  lemma DoFilterSelects<R(!new)>(qs: seq<R>, qdata: Items, fields: seq<string>, intFields: seq<string>,
                           filter: (seq<R>, Q, map<string, Arg>) -> Result<seq<R>>,
                           sat: (R, string, Arg) -> bool)
    requires ExactFilter(filter, sat)
    ensures var quick := QuickQuery(ItemGet(qdata, QuickSearchKey), fields, intFields);
      var p := Build(qdata);
      var r := Filtered(qs, qdata, fields, intFields, filter);
      && (quick.Raised? ==> r == qs)
      && (quick.Ok? ==> forall x :: x in r <==>
            x in qs && Matches(x, quick.value, map[], sat) && Matches(x, p.q, p.kw, sat))
  {
    var quick := QuickQuery(ItemGet(qdata, QuickSearchKey), fields, intFields);
    if quick.Ok? {
      var p := Build(qdata);
      var first := Select(qs, quick.value, map[], sat);
      assert filter(qs, quick.value, map[]) == Ok(first);
      assert filter(first, p.q, p.kw) == Ok(Select(first, p.q, p.kw, sat));
      SelectMembers(qs, quick.value, map[], sat);
      SelectMembers(first, p.q, p.kw, sat);
    }
  }

  /** Over a collection whose `filter` is exact, filtering a filtered
      collection again with the same parameters changes nothing. */
  lemma DoFilterIdempotent<R(!new)>(qs: seq<R>, qdata: Items, fields: seq<string>, intFields: seq<string>,
                              filter: (seq<R>, Q, map<string, Arg>) -> Result<seq<R>>,
                              sat: (R, string, Arg) -> bool)
    requires ExactFilter(filter, sat)
    ensures var once := Filtered(qs, qdata, fields, intFields, filter);
      Filtered(once, qdata, fields, intFields, filter) == once
  {
    var quick := QuickQuery(ItemGet(qdata, QuickSearchKey), fields, intFields);
    if quick.Ok? {
      var p := Build(qdata);
      var once := Filtered(qs, qdata, fields, intFields, filter);
      var first := Select(qs, quick.value, map[], sat);
      assert filter(qs, quick.value, map[]) == Ok(first);
      assert filter(first, p.q, p.kw) == Ok(Select(first, p.q, p.kw, sat));
      SelectMembers(qs, quick.value, map[], sat);
      SelectMembers(first, p.q, p.kw, sat);
      assert filter(once, quick.value, map[]) == Ok(Select(once, quick.value, map[], sat));
      SelectKeepsAll(once, quick.value, map[], sat);
      assert filter(once, p.q, p.kw) == Ok(Select(once, p.q, p.kw, sat));
      SelectKeepsAll(once, p.q, p.kw, sat);
    }
  }
}
