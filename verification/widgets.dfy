/**
 * lbutils/widgets.py (and the identical copies in lbutils/form.py): which
 * options a "just selected" select renders, which label a read-only select
 * shows, when a multiple select counts as changed, and the description a
 * `TextWidget` shows for the widget it replaces. The HTML text itself is not
 * modelled: an option or group marker stands for the markup it produces.
 */
module Widgets {
  import opened Strings
  import opened Python

  /** An entry of a choice list: `(value, label)`, or an option group
      `(value, [(value, label), …])`. */
  datatype ChoiceEntry =
    | Single(value: Value, caption: Value)
    | Group(value: Value, options: seq<(Value, Value)>)

  /** One piece of `render_options` output. */
  datatype Rendered =
    | GroupOpen(title: string)                // <optgroup label="…">
    | OptionTag(value: Value, caption: Value) // render_option(…)
    | GroupClose                              // </optgroup>

  /** `force_unicode([0])`, the text optgroup members are compared with. */
  const GroupMemberKey: string := ToStr(List([Int(0)]))

  lemma GroupMemberKeyText()
    ensures GroupMemberKey == "[0]"
  {
    assert seq(1, k requires 0 <= k < 1 => Repr([Int(0)][k])) == ["0"];
  }

  // ----- render_options (widgets.py:25-47, form.py:26-46) -----

  /** `set([force_unicode(v) for v in selected_choices if v])`. */
  function SelectedSet(selected: seq<Value>): (r: set<string>)
    ensures forall s :: s in r <==> exists v :: v in selected && Truthy(v) && ToStr(v) == s
  {
    set v | v in selected && Truthy(v) :: ToStr(v)
  }

  /** What one entry contributes: a single option only when its text is
      selected; a group always its markers, and its members only when the
      text `[0]` is selected. */
  function EntryOutput(e: ChoiceEntry, selected: set<string>): seq<Rendered> {
    match e
    case Single(v, l) => if ToStr(v) in selected then [OptionTag(v, l)] else []
    case Group(v, opts) =>
      [GroupOpen(ToStr(v))]
      + (if GroupMemberKey in selected then seq(|opts|, i requires 0 <= i < |opts| => OptionTag(opts[i].0, opts[i].1)) else [])
      + [GroupClose]
  }

  function Output(entries: seq<ChoiceEntry>, selected: set<string>): seq<Rendered>
    decreases |entries|
  {
    if |entries| == 0 then []
    else Output(entries[..|entries| - 1], selected) + EntryOutput(entries[|entries| - 1], selected)
  }

  /** The selected set the first line of `render_options` builds. */
  method CollectSelected(selectedChoices: seq<Value>) returns (selected: set<string>)
    ensures selected == SelectedSet(selectedChoices)
  {
    selected := {};
    for i := 0 to |selectedChoices|
      invariant selected == SelectedSet(selectedChoices[..i])
    {
      var v := selectedChoices[i];
      if Truthy(v) {
        selected := selected + {ToStr(v)};
      }
      assert selectedChoices[..i + 1] == selectedChoices[..i] + [v];
    }
    assert selectedChoices[..|selectedChoices|] == selectedChoices;
  }

  /** The body of the loop over the chained entries, for one entry. */
  method RenderEntry(e: ChoiceEntry, selected: set<string>) returns (output: seq<Rendered>)
    ensures output == EntryOutput(e, selected)
  {
    match e
    case Group(v, opts) =>
      output := [GroupOpen(ToStr(v))];
      ghost var members := seq(|opts|, k requires 0 <= k < |opts| => OptionTag(opts[k].0, opts[k].1));
      for j := 0 to |opts|
        invariant output == [GroupOpen(ToStr(v))] + if GroupMemberKey in selected then members[..j] else []
      {
        if GroupMemberKey !in selected {
          continue;
        }
        output := output + [OptionTag(opts[j].0, opts[j].1)];
        assert members[..j + 1] == members[..j] + [members[j]];
      }
      assert members[..|opts|] == members;
      output := output + [GroupClose];
    case Single(v, l) =>
      output := [];
      if ToStr(v) !in selected {
        return;
      }
      output := [OptionTag(v, l)];
  }

  /** `render_options(choices, selected_choices)` of a widget whose own
      choices are `own`: the chained entries, in order. */
  method RenderOptions(own: seq<ChoiceEntry>, choices: seq<ChoiceEntry>, selectedChoices: seq<Value>)
    returns (output: seq<Rendered>)
    ensures output == Output(own + choices, SelectedSet(selectedChoices))
  {
    var selected := CollectSelected(selectedChoices);
    var entries := own + choices;
    output := [];
    for i := 0 to |entries|
      invariant output == Output(entries[..i], selected)
    {
      assert entries[..i + 1][..i] == entries[..i];
      var out := RenderEntry(entries[i], selected);
      output := output + out;
    }
    assert entries[..|entries|] == entries;
  }

  /** Without groups, the options rendered are exactly the entries whose text
      is selected: unselected and falsy selections render nothing. */
  lemma {:induction false} OutputSinglesSelected(entries: seq<ChoiceEntry>, selected: set<string>)
    requires forall i :: 0 <= i < |entries| ==> entries[i].Single?
    ensures forall r :: r in Output(entries, selected) <==>
              r.OptionTag? && Single(r.value, r.caption) in entries && ToStr(r.value) in selected
    decreases |entries|
  {
    if |entries| > 0 {
      var init := entries[..|entries| - 1];
      OutputSinglesSelected(init, selected);
      forall r
        ensures r in Output(entries, selected) <==>
                r.OptionTag? && Single(r.value, r.caption) in entries && ToStr(r.value) in selected
      {
        if r.OptionTag? && Single(r.value, r.caption) in entries && ToStr(r.value) in selected {
          var i :| 0 <= i < |entries| && entries[i] == Single(r.value, r.caption);
          if i < |entries| - 1 {
            assert init[i] == entries[i];
          }
        }
        if r in Output(init, selected) {
          var e :| e in init && e == Single(r.value, r.caption);
          var i :| 0 <= i < |init| && init[i] == e;
          assert entries[i] == e;
        }
      }
    }
  }

  /** A group keeps its markers whatever is selected, and shows its members
      exactly when `[0]` is selected, whatever their own values. */
  lemma GroupOutput(v: Value, opts: seq<(Value, Value)>, selected: set<string>)
    ensures var out := EntryOutput(Group(v, opts), selected);
      && out[0] == GroupOpen(ToStr(v)) && out[|out| - 1] == GroupClose
      && (|out| > 2 <==> "[0]" in selected && opts != [])
  {
    GroupMemberKeyText();
  }

  /** The input that shows it: with `a` selected, a group holding the option
      `a` renders its markers but not the option. */
  lemma GroupMemberSelectedIsDropped()
    ensures var g := Group(Str("g"), [(Str("a"), Str("A"))]);
      && Output([g], SelectedSet([Str("a")])) == [GroupOpen("g"), GroupClose]
      && IntendedOutput([g], SelectedSet([Str("a")])) == [GroupOpen("g"), OptionTag(Str("a"), Str("A")), GroupClose]
  {
    GroupMemberKeyText();
    assert Str("a") in [Str("a")];
    assert SelectedSet([Str("a")]) == {"a"};
    var g := Group(Str("g"), [(Str("a"), Str("A"))]);
    assert [g][..0] == [];
  }

  /** What a group was evidently meant to contribute: its markers, and each
      member whose own text is selected. */
  function IntendedEntryOutput(e: ChoiceEntry, selected: set<string>): seq<Rendered> {
    match e
    case Single(v, l) => if ToStr(v) in selected then [OptionTag(v, l)] else []
    case Group(v, opts) => [GroupOpen(ToStr(v))] + SelectedMembers(opts, selected) + [GroupClose]
  }

  function SelectedMembers(opts: seq<(Value, Value)>, selected: set<string>): (r: seq<Rendered>)
    ensures forall x :: x in r <==> x.OptionTag? && (x.value, x.caption) in opts && ToStr(x.value) in selected
    decreases |opts|
  {
    if |opts| == 0 then []
    else
      var rest := SelectedMembers(opts[1..], selected);
      assert forall o :: o in opts <==> o == opts[0] || o in opts[1..];
      if ToStr(opts[0].0) in selected then [OptionTag(opts[0].0, opts[0].1)] + rest else rest
  }

  function IntendedOutput(entries: seq<ChoiceEntry>, selected: set<string>): seq<Rendered>
    decreases |entries|
  {
    if |entries| == 0 then []
    else IntendedOutput(entries[..|entries| - 1], selected) + IntendedEntryOutput(entries[|entries| - 1], selected)
  }

  /** With the intended test, every rendered option, at top level or inside a
      group, is one whose own text is selected, and every such option is
      rendered. */
  lemma {:induction false} IntendedOutputSelected(entries: seq<ChoiceEntry>, selected: set<string>)
    ensures forall x :: x in IntendedOutput(entries, selected) && x.OptionTag? <==>
              x.OptionTag? && ToStr(x.value) in selected
              && exists i :: 0 <= i < |entries| &&
                   (entries[i] == Single(x.value, x.caption)
                    || (entries[i].Group? && (x.value, x.caption) in entries[i].options))
    decreases |entries|
  {
    if |entries| > 0 {
      var n := |entries|;
      var init := entries[..n - 1];
      IntendedOutputSelected(init, selected);
      assert forall i :: 0 <= i < n - 1 ==> init[i] == entries[i];
      forall x: Rendered | x.OptionTag? && ToStr(x.value) in selected
                 && exists i :: 0 <= i < n &&
                      (entries[i] == Single(x.value, x.caption)
                       || (entries[i].Group? && (x.value, x.caption) in entries[i].options))
        ensures x in IntendedOutput(entries, selected)
      {
        var i :| 0 <= i < n &&
                 (entries[i] == Single(x.value, x.caption)
                  || (entries[i].Group? && (x.value, x.caption) in entries[i].options));
        if i == n - 1 {
          assert x in IntendedEntryOutput(entries[i], selected);
        } else {
          assert init[i] == entries[i];
        }
      }
    }
  }

  // ----- render_readonly (widgets.py:49-56) -----

  /** The label of the first choice whose value reads as `value` does, or
      `""` when there is none. */
  function ReadonlyLabel(choices: seq<(Value, Value)>, value: Value): (r: Value)
    ensures (forall i :: 0 <= i < |choices| ==> ToStr(choices[i].0) != ToStr(value)) ==> r == Str("")
    ensures (exists i :: 0 <= i < |choices| && ToStr(choices[i].0) == ToStr(value)) ==>
              exists i :: 0 <= i < |choices| && ToStr(choices[i].0) == ToStr(value) && r == choices[i].1
                && forall j :: 0 <= j < i ==> ToStr(choices[j].0) != ToStr(value)
    decreases |choices|
  {
    if |choices| == 0 then Str("")
    else if ToStr(choices[0].0) == ToStr(value) then choices[0].1
    else
      var r := ReadonlyLabel(choices[1..], value);
      assert forall i :: 1 <= i < |choices| ==> choices[i] == choices[1..][i - 1];
      r
  }

  method RenderReadonly(choices: seq<(Value, Value)>, value: Value) returns (caption: Value)
    ensures caption == ReadonlyLabel(choices, value)
  {
    for i := 0 to |choices|
      invariant ReadonlyLabel(choices, value) == ReadonlyLabel(choices[i..], value)
    {
      if ToStr(choices[i].0) == ToStr(value) {
        return choices[i].1;
      }
      assert choices[i..][1..] == choices[i + 1..];
    }
    return Str("");
  }

  // ----- _has_changed (widgets.py:78-87, form.py:66-75) -----

  /** The texts of a list's values. */
  function TextSet(values: seq<Value>): set<string> {
    set v | v in values :: ToStr(v)
  }

  /** `_has_changed(initial, data)`; `None` stands for a missing list. The
      same data never counts as changed, nor do two lists that are each
      missing or empty. */
  function HasChanged(initial: Option<seq<Value>>, data: Option<seq<Value>>): (r: bool)
    ensures initial == data ==> !r
    ensures (initial.None? || initial.value == []) && (data.None? || data.value == []) ==> !r
  {
    var a := if initial.None? then [] else initial.value;
    var b := if data.None? then [] else data.value;
    if |a| != |b| then true else TextSet(a) != TextSet(b)
  }

  /** A missing list counts as an empty one, on either side. */
  lemma HasChangedNone(x: Option<seq<Value>>)
    ensures HasChanged(None, x) == HasChanged(Some([]), x)
    ensures HasChanged(x, None) == HasChanged(x, Some([]))
  {
  }

  /** Lists of different lengths always count as changed; lists of the same
      length count as changed exactly when some text is in one and not the
      other. */
  lemma HasChangedMeaning(a: seq<Value>, b: seq<Value>)
    ensures |a| != |b| ==> HasChanged(Some(a), Some(b))
    ensures |a| == |b| ==> (HasChanged(Some(a), Some(b)) <==>
              exists s :: (s in TextSet(a)) != (s in TextSet(b)))
  {
    if |a| == |b| && TextSet(a) != TextSet(b) {
      if TextSet(a) - TextSet(b) != {} {
        var s :| s in TextSet(a) - TextSet(b);
      } else {
        forall x | x in TextSet(a) ensures x in TextSet(b) {
          assert x !in TextSet(a) - TextSet(b);
        }
        assert TextSet(b) - TextSet(a) != {};
        var s :| s in TextSet(b) - TextSet(a);
      }
    }
  }

  /** Reordering is not a change, and the comparison is symmetric. */
  lemma HasChangedPermutation(a: seq<Value>, b: seq<Value>)
    requires multiset(a) == multiset(b)
    ensures !HasChanged(Some(a), Some(b))
  {
    assert |a| == |multiset(a)| == |multiset(b)| == |b|;
    forall v ensures v in a <==> v in b {
      assert v in a <==> v in multiset(a);
      assert v in b <==> v in multiset(b);
    }
  }

  lemma HasChangedSymmetric(a: Option<seq<Value>>, b: Option<seq<Value>>)
    ensures HasChanged(a, b) == HasChanged(b, a)
  {
  }

  /** Only which texts occur counts: `[a, a, b]` against `[a, b, b]` is no
      change, though the lists hold different multisets. */
  lemma HasChangedIgnoresMultiplicity()
    ensures !HasChanged(Some([Str("a"), Str("a"), Str("b")]), Some([Str("a"), Str("b"), Str("b")]))
    ensures multiset([Str("a"), Str("a"), Str("b")]) != multiset([Str("a"), Str("b"), Str("b")])
  {
    var a := [Str("a"), Str("a"), Str("b")];
    var b := [Str("a"), Str("b"), Str("b")];
    assert TextSet(a) == {"a", "b"} by {
      assert a[0] in a && a[2] in a;
    }
    assert TextSet(b) == {"a", "b"} by {
      assert b[0] in b && b[1] in b;
    }
    assert multiset(a)[Str("a")] == 2;
  }

  // ----- TextWidget.render (widgets.py:110-131) -----

  /** The widget a `TextWidget` stands in for. `JustSelected` is any widget
      with `render_readonly` (the just-selected selects); `Select` any other
      select, whose labels are text. */
  datatype SourceWidget =
    | JustSelected(own: seq<(Value, Value)>)
    | Select(choices: seq<(Value, string)>)
    | Checkbox
    | Textarea
    | Other

  const CheckMark: string := "√"
  const CrossMark: string := "×"

  /** The texts a select compares its choices against: each item of a list,
      or the value itself. */
  function ValueTexts(value: Value): (r: seq<string>)
    ensures value.List? ==> |r| == |value.items| && forall i :: 0 <= i < |r| ==> r[i] == ToStr(value.items[i])
    ensures !value.List? ==> r == [ToStr(value)]
  {
    if value.List? then seq(|value.items|, i requires 0 <= i < |value.items| => ToStr(value.items[i]))
    else [ToStr(value)]
  }

  /** The labels of the choices whose value reads as one of `texts`, in
      choice order. */
  function SelectedLabels(choices: seq<(Value, string)>, texts: seq<string>): (r: seq<string>)
    ensures |r| <= |choices|
    ensures forall l :: l in r ==> exists i :: 0 <= i < |choices| && choices[i].1 == l && ToStr(choices[i].0) in texts
    ensures forall i :: 0 <= i < |choices| && ToStr(choices[i].0) in texts ==> choices[i].1 in r
    decreases |choices|
  {
    if |choices| == 0 then []
    else
      var n := |choices|;
      var init := SelectedLabels(choices[..n - 1], texts);
      assert forall i :: 0 <= i < n - 1 ==> choices[..n - 1][i] == choices[i];
      if ToStr(choices[n - 1].0) in texts then init + [choices[n - 1].1] else init
  }

  /** The description `TextWidget.render` shows: a read-only rendering when
      the source has one, before any other rule; for a select the selected
      labels joined by `,`; a check or a cross for a checkbox; the raw value
      for a textarea; otherwise the text of the value, `""` for None. */
  function Description(src: SourceWidget, value: Value): (r: Value)
    ensures src.JustSelected? ==> r == ReadonlyLabel(src.own, value)
    ensures src.Checkbox? ==> r == Str(if Truthy(value) then CheckMark else CrossMark)
    ensures src.Textarea? ==> r == value
    ensures src.Other? ==> r == Str(if value.NoneVal? then "" else ToStr(value))
    ensures src.Select? ==> r == Str(Join(",", SelectedLabels(src.choices, ValueTexts(value))))
  {
    match src
    case JustSelected(own) => ReadonlyLabel(own, value)
    case Select(choices) =>
      Str(Join(",", SelectedLabels(choices, ValueTexts(value))))
    case Checkbox => Str(if Truthy(value) then CheckMark else CrossMark)
    case Textarea => value
    case Other => Str(if value.NoneVal? then "" else ToStr(value))
  }

  /** The description loop of the select branch. */
  method SelectDescription(choices: seq<(Value, string)>, value: Value) returns (descn: string)
    ensures Description(Select(choices), value) == Str(descn)
  {
    var values := ValueTexts(value);
    var descns: seq<string> := [];
    for i := 0 to |choices|
      invariant descns == SelectedLabels(choices[..i], values)
    {
      assert choices[..i + 1][..i] == choices[..i];
      var (v, d) := choices[i];
      if ToStr(v) in values {
        descns := descns + [d];
      }
    }
    assert choices[..|choices|] == choices;
    descn := Join(",", descns);
  }

  /** When no label holds a comma, the description of a select splits back
      into exactly the labels of the selected choices, in choice order. */
  lemma SelectDescriptionLabels(choices: seq<(Value, string)>, value: Value)
    requires forall i :: 0 <= i < |choices| ==> ',' !in choices[i].1
    requires SelectedLabels(choices, ValueTexts(value)) != []
    ensures Split(Description(Select(choices), value).s, ',') == SelectedLabels(choices, ValueTexts(value))
  {
    var labels := SelectedLabels(choices, ValueTexts(value));
    forall i | 0 <= i < |labels|
      ensures ',' !in labels[i]
    {
      assert labels[i] in labels;
    }
    SplitJoin(labels, ',');
  }
}
