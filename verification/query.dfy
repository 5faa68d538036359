/**
 * The filter descriptors both query builders (qs.py and its older variant
 * db.py) produce: Django's `Q` objects as a tree, the values a lookup can be
 * given (`F` references, lists, dates), and the comma handling the two
 * builders share.
 *
 * Combining follows `Q._combine`: combining with an empty `Q()` yields the
 * other operand, so `Q() | x` is `x`, not "true or x". An abstract evaluator
 * gives a tree its meaning over one record, described by which single
 * `path = arg` lookups it satisfies.
 */
module Query {
  import opened Strings
  import opened Python

  datatype CalendarDate = CalendarDate(year: int, month: int, day: int)

  /** The right-hand side of a lookup. */
  datatype Arg =
    | Plain(v: Value)              // a value passed as it is (coerced booleans included)
    | FieldRef(name: string)       // F(name)
    | Tokens(items: seq<string>)   // a list of strings, for `__in` lookups
    | DateArg(date: CalendarDate)  // a datetime.date

  /** A `Q` object. `Empty` is `Q()`; `Leaf` is `Q(**{path: arg})`. */
  datatype Q =
    | Empty
    | Leaf(path: string, arg: Arg)
    | Or(left: Q, right: Q)
    | And(left: Q, right: Q)

  /** `a | b`: `Q._combine` returns the other operand when one side is
      `Q()`, so an empty side leaves no trace in the tree. */
  function QOr(a: Q, b: Q): (r: Q)
    ensures r.Empty? <==> a.Empty? && b.Empty?
    ensures Leaves(r) == Leaves(a) + Leaves(b)
  {
    if b.Empty? then a else if a.Empty? then b else Or(a, b)
  }

  /** `a & b`, with the same treatment of an empty side as `a | b`. */
  function QAnd(a: Q, b: Q): (r: Q)
    ensures r.Empty? <==> a.Empty? && b.Empty?
    ensures Leaves(r) == Leaves(a) + Leaves(b)
  {
    if b.Empty? then a else if a.Empty? then b else And(a, b)
  }

  /** The `Q` a loop `q = Q(); for x in xs: q = q | x` builds. */
  function AnyOf(qs: seq<Q>): Q
    decreases |qs|
  {
    if |qs| == 0 then Empty else QOr(AnyOf(qs[..|qs| - 1]), qs[|qs| - 1])
  }

  /** Two leaves OR-ed in turn give their disjunction. */
  lemma AnyOfTwo(a: Q, b: Q)
    requires a.Leaf? && b.Leaf?
    ensures AnyOf([a, b]) == Or(a, b)
  {
    assert [a][..0] == [];
    assert AnyOf([a]) == a;
    assert [a, b][..1] == [a];
  }

  /** A record satisfies `q`, given which single lookups it satisfies. `Q()`
      filters nothing out. */
  function Eval(q: Q, holds: (string, Arg) -> bool): bool {
    match q
    case Empty => true
    case Leaf(path, arg) => holds(path, arg)
    case Or(l, r) => Eval(l, holds) || Eval(r, holds)
    case And(l, r) => Eval(l, holds) && Eval(r, holds)
  }

  /** A record satisfies every keyword argument of a `filter(**kw)` call. */
  predicate KwHolds(kw: map<string, Arg>, holds: (string, Arg) -> bool) {
    forall k :: k in kw ==> holds(k, kw[k])
  }

  /** The leaves of a tree, left to right. */
  function Leaves(q: Q): seq<Q> {
    match q
    case Empty => []
    case Leaf(_, _) => [q]
    case Or(l, r) => Leaves(l) + Leaves(r)
    case And(l, r) => Leaves(l) + Leaves(r)
  }

  /** A tree of `|` over leaves, with no `Q()` inside. */
  predicate IsDisjunction(q: Q) {
    match q
    case Empty => true
    case Leaf(_, _) => true
    case Or(l, r) => !l.Empty? && !r.Empty? && IsDisjunction(l) && IsDisjunction(r)
    case And(_, _) => false
  }

  predicate AllLeaves(qs: seq<Q>) {
    forall i :: 0 <= i < |qs| ==> qs[i].Leaf?
  }

  /** `&` with `Q()` on either side is neutral, so conjunction means "both". */
  lemma EvalAnd(a: Q, b: Q, holds: (string, Arg) -> bool)
    ensures Eval(QAnd(a, b), holds) == (Eval(a, holds) && Eval(b, holds))
  {
  }

  /** OR-ing leaves one after the other gives a disjunction of exactly those
      leaves, in order; it is `Q()` only when there are none. */
  lemma {:induction false} AnyOfShape(qs: seq<Q>)
    requires AllLeaves(qs)
    ensures Leaves(AnyOf(qs)) == qs
    ensures IsDisjunction(AnyOf(qs))
    ensures AnyOf(qs).Empty? <==> qs == []
    decreases |qs|
  {
    if |qs| > 0 {
      var init := qs[..|qs| - 1];
      var last := qs[|qs| - 1];
      AnyOfShape(init);
      assert AnyOf(qs) == QOr(AnyOf(init), last);
      assert Leaves(last) == [last];
      assert init + [last] == qs;
    }
  }

  /** Some leaf of the list is a lookup the record satisfies. */
  predicate SomeLeafHolds(qs: seq<Q>, holds: (string, Arg) -> bool) {
    exists i :: 0 <= i < |qs| && qs[i].Leaf? && holds(qs[i].path, qs[i].arg)
  }

  lemma SomeLeafHoldsAppend(a: seq<Q>, b: seq<Q>, holds: (string, Arg) -> bool)
    ensures SomeLeafHolds(a + b, holds) <==> SomeLeafHolds(a, holds) || SomeLeafHolds(b, holds)
  {
    var ab := a + b;
    if SomeLeafHolds(ab, holds) {
      var i :| 0 <= i < |ab| && ab[i].Leaf? && holds(ab[i].path, ab[i].arg);
      if i >= |a| {
        assert b[i - |a|] == ab[i];
      }
    }
    if SomeLeafHolds(a, holds) {
      var i :| 0 <= i < |a| && a[i].Leaf? && holds(a[i].path, a[i].arg);
      assert ab[i] == a[i];
    }
    if SomeLeafHolds(b, holds) {
      var i :| 0 <= i < |b| && b[i].Leaf? && holds(b[i].path, b[i].arg);
      assert ab[|a| + i] == b[i];
    }
  }

  /** A record satisfies an OR of leaves exactly when it satisfies one of them,
      except that an OR of no leaves is `Q()` and keeps every record. */
  lemma {:induction false} AnyOfEval(qs: seq<Q>, holds: (string, Arg) -> bool)
    requires AllLeaves(qs)
    ensures Eval(AnyOf(qs), holds) <==> (qs == [] || SomeLeafHolds(qs, holds))
    decreases |qs|
  {
    if |qs| > 0 {
      var init := qs[..|qs| - 1];
      var last := qs[|qs| - 1];
      assert AllLeaves(init);
      AnyOfEval(init, holds);
      AnyOfShape(init);
      assert qs == init + [last];
      SomeLeafHoldsAppend(init, [last], holds);
      assert SomeLeafHolds([last], holds) <==> holds(last.path, last.arg);
      if init == [] {
        assert AnyOf(qs) == last;
      } else {
        assert AnyOf(qs) == Or(AnyOf(init), last);
      }
    }
  }

  // ----- comma handling shared by both builders -----

  /** The full-width comma U+FF0C that is accepted in place of `,`. */
  const FullWidthComma: char := '\U{FF0C}'

  /** `v.replace('，', ',')`: same length, no full-width comma left, and
      every other character kept in place. */
  function Normalize(s: string): (r: string)
    ensures |r| == |s| && FullWidthComma !in r
    ensures forall i :: 0 <= i < |s| ==> r[i] == (if s[i] == FullWidthComma then ',' else s[i])
  {
    ReplaceChar(s, FullWidthComma, ',')
  }

  lemma NormalizeIdentity(s: string)
    requires FullWidthComma !in s
    ensures Normalize(s) == s
  {
    assert forall i :: 0 <= i < |s| ==> s[i] != FullWidthComma;
  }

  /** `[e for e in parts if e]`. */
  function NonEmpty(parts: seq<string>): (r: seq<string>)
    ensures forall i :: 0 <= i < |r| ==> r[i] != ""
    decreases |parts|
  {
    if |parts| == 0 then []
    else if parts[0] == "" then NonEmpty(parts[1..])
    else [parts[0]] + NonEmpty(parts[1..])
  }

  /** The kept parts are exactly the non-empty ones. */
  lemma {:induction false} NonEmptyMembers(parts: seq<string>)
    ensures forall x :: x in NonEmpty(parts) <==> x in parts && x != ""
    decreases |parts|
  {
    if |parts| > 0 {
      NonEmptyMembers(parts[1..]);
      assert parts == [parts[0]] + parts[1..];
    }
  }

  /** The non-empty parts of a split at commas hold no comma. */
  lemma SplitTokensFree(s: string)
    ensures forall i :: 0 <= i < |NonEmpty(Split(s, ','))| ==> ',' !in NonEmpty(Split(s, ','))[i]
  {
    SplitPartsFree(s, ',');
    var parts := Split(s, ',');
    NonEmptyMembers(parts);
    forall i | 0 <= i < |NonEmpty(parts)|
      ensures ',' !in NonEmpty(parts)[i]
    {
      assert NonEmpty(parts)[i] in NonEmpty(parts);
      assert NonEmpty(parts)[i] in parts;
      var j :| 0 <= j < |parts| && parts[j] == NonEmpty(parts)[i];
    }
  }

  /** `[e for e in v.split(',') if e]`: the tokens are non-empty and hold no
      comma. */
  function CommaTokens(s: string): (r: seq<string>)
    ensures forall i :: 0 <= i < |r| ==> r[i] != "" && ',' !in r[i]
  {
    SplitTokensFree(s);
    NonEmpty(Split(s, ','))
  }

  lemma {:induction false} NonEmptyKeeps(parts: seq<string>)
    requires forall i :: 0 <= i < |parts| ==> parts[i] != ""
    ensures NonEmpty(parts) == parts
    decreases |parts|
  {
    if |parts| > 0 {
      NonEmptyKeeps(parts[1..]);
    }
  }

  /** Writing non-empty, comma-free tokens joined by commas gives the same
      tokens back. */
  lemma CommaTokensJoin(tokens: seq<string>)
    requires |tokens| >= 1
    requires forall i :: 0 <= i < |tokens| ==> tokens[i] != "" && ',' !in tokens[i]
    ensures CommaTokens(Join(",", tokens)) == tokens
  {
    SplitJoin(tokens, ',');
    NonEmptyKeeps(tokens);
  }

  /** `{'__True': True, '__False': False}.get(v, v)`. */
  function Coerce(s: string): (r: Arg)
    ensures r.Plain?
    ensures r.v.Bool? <==> s == "__True" || s == "__False"
    ensures r.v.Bool? ==> (r.v.b <==> s == "__True")
    ensures !r.v.Bool? ==> r.v == Str(s)
  {
    if s == "__True" then Plain(Bool(true))
    else if s == "__False" then Plain(Bool(false))
    else Plain(Str(s))
  }

  /** One equality leaf per token on the same path. */
  function TokenLeaves(path: string, tokens: seq<string>): (r: seq<Q>)
    ensures |r| == |tokens| && AllLeaves(r)
  {
    seq(|tokens|, i requires 0 <= i < |tokens| => Leaf(path, Plain(Str(tokens[i]))))
  }

  /** A record satisfies the OR group of a comma list when its path equals one
      of the tokens; a list with no tokens is `Q()` and keeps every record. */
  lemma OrGroupEval(path: string, tokens: seq<string>, holds: (string, Arg) -> bool)
    ensures Eval(AnyOf(TokenLeaves(path, tokens)), holds) <==>
              (tokens == [] || exists t :: t in tokens && holds(path, Plain(Str(t))))
  {
    var ls := TokenLeaves(path, tokens);
    AnyOfEval(ls, holds);
    if SomeLeafHolds(ls, holds) {
      var i :| 0 <= i < |ls| && ls[i].Leaf? && holds(ls[i].path, ls[i].arg);
      assert tokens[i] in tokens;
    }
    if exists t :: t in tokens && holds(path, Plain(Str(t))) {
      var t :| t in tokens && holds(path, Plain(Str(t)));
      var i :| 0 <= i < |tokens| && tokens[i] == t;
      assert ls[i].Leaf? && holds(ls[i].path, ls[i].arg);
    }
  }
}
