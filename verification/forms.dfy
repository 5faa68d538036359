/**
 * lbutils/forms.py (and the formset copies in lbutils/form.py): the form
 * mixin that picks fields by name and changes them in place, the row layout
 * helper, and the formsets that hand `ext_data` to every form they build.
 * A form is known by its ordered fields; a widget by whether it is a select
 * and by its HTML attributes.
 */
module Forms {
  import opened Strings
  import opened Python

  datatype Widget = Widget(isSelect: bool, attrs: map<string, string>)

  datatype Field = Field(name: string, hidden: bool, required: bool, widget: Widget)

  const SelectComponentClass: string := "select_component"

  /** A field `filter_fields` keeps: visible, named in `names` unless that is
      empty, and not named in `exclude`. */
  predicate Picked(f: Field, names: seq<string>, exclude: seq<string>) {
    !f.hidden && (names == [] || f.name in names) && f.name !in exclude
  }

  /** The picked fields, in form order. */
  function Picks(fs: seq<Field>, names: seq<string>, exclude: seq<string>): (r: seq<Field>)
    ensures |r| <= |fs|
    ensures forall i :: 0 <= i < |r| ==> Picked(r[i], names, exclude)
    decreases |fs|
  {
    if |fs| == 0 then []
    else
      var init := fs[..|fs| - 1];
      var last := fs[|fs| - 1];
      Picks(init, names, exclude) + if Picked(last, names, exclude) then [last] else []
  }

  /** The picked fields are exactly the fields of the form that pass. */
  lemma {:induction false} PicksMembers(fs: seq<Field>, names: seq<string>, exclude: seq<string>)
    ensures forall f :: f in Picks(fs, names, exclude) <==> f in fs && Picked(f, names, exclude)
    decreases |fs|
  {
    if |fs| > 0 {
      var init := fs[..|fs| - 1];
      PicksMembers(init, names, exclude);
      assert fs == init + [fs[|fs| - 1]];
    }
  }

  /** What `filter_fields(fields, exclude, include_all_if_empty)` returns:
      nothing when no names are given and that does not mean all, otherwise
      the picked fields. */
  function Selection(fs: seq<Field>, names: seq<string>, exclude: seq<string>, includeAllIfEmpty: bool): (r: seq<Field>)
    ensures !includeAllIfEmpty && names == [] ==> r == []
    ensures forall i :: 0 <= i < |r| ==> Picked(r[i], names, exclude)
  {
    if !includeAllIfEmpty && names == [] then [] else Picks(fs, names, exclude)
  }

  /** With names given, or with an empty list meaning all, the selection is
      exactly the fields of the form that pass. */
  lemma SelectionMembers(fs: seq<Field>, names: seq<string>, exclude: seq<string>, includeAllIfEmpty: bool)
    requires includeAllIfEmpty || names != []
    ensures forall f :: f in Selection(fs, names, exclude, includeAllIfEmpty) <==> f in fs && Picked(f, names, exclude)
  {
    PicksMembers(fs, names, exclude);
  }

  /** Picking keeps form order: it distributes over concatenation. */
  lemma {:induction false} PicksAppend(a: seq<Field>, b: seq<Field>, names: seq<string>, exclude: seq<string>)
    ensures Picks(a + b, names, exclude) == Picks(a, names, exclude) + Picks(b, names, exclude)
    decreases |b|
  {
    if |b| == 0 {
      assert a + b == a;
    } else {
      var init := b[..|b| - 1];
      assert (a + b)[..|a + b| - 1] == a + init;
      PicksAppend(a, init, names, exclude);
    }
  }

  function NamesOf(fs: seq<Field>): (r: seq<string>)
    ensures |r| == |fs| && forall i :: 0 <= i < |fs| ==> r[i] == fs[i].name
  {
    seq(|fs|, i requires 0 <= i < |fs| => fs[i].name)
  }

  predicate DistinctNames(fs: seq<Field>) {
    forall i, j :: 0 <= i < j < |fs| ==> fs[i].name != fs[j].name
  }

  /** Picking from fields with distinct names gives fields with distinct names. */
  lemma {:induction false} PicksDistinct(fs: seq<Field>, names: seq<string>, exclude: seq<string>)
    requires DistinctNames(fs)
    ensures DistinctNames(Picks(fs, names, exclude))
    decreases |fs|
  {
    if |fs| > 0 {
      var init := fs[..|fs| - 1];
      var last := fs[|fs| - 1];
      assert DistinctNames(init);
      PicksDistinct(init, names, exclude);
      PicksMembers(init, names, exclude);
      var front := Picks(init, names, exclude);
      forall f | f in front
        ensures f.name != last.name
      {
        var k :| 0 <= k < |init| && init[k] == f;
      }
    }
  }

  /** With distinct names, a field's name is among the picked names exactly
      when the field itself is picked. */
  lemma PickedByName(fs: seq<Field>, names: seq<string>, exclude: seq<string>, k: nat)
    requires DistinctNames(fs) && k < |fs|
    ensures fs[k].name in NamesOf(Picks(fs, names, exclude)) <==> Picked(fs[k], names, exclude)
  {
    var picked := Picks(fs, names, exclude);
    PicksMembers(fs, names, exclude);
    if fs[k].name in NamesOf(picked) {
      var i :| 0 <= i < |picked| && NamesOf(picked)[i] == fs[k].name;
      assert picked[i] in fs;
      var j :| 0 <= j < |fs| && fs[j] == picked[i];
    }
    if Picked(fs[k], names, exclude) {
      assert fs[k] in fs;
      var i :| 0 <= i < |picked| && picked[i] == fs[k];
      assert NamesOf(picked)[i] == fs[k].name;
    }
  }

  /** `'%s %s' % (org_val, attr_val) if org_val else attr_val`, stored under
      the attribute name. */
  function MergeAttr(attrs: map<string, string>, name: string, val: string): (r: map<string, string>)
    ensures name in r && EndsWith(r[name], val)
    ensures forall k :: k != name ==> (k in r <==> k in attrs) && (k in attrs ==> r[k] == attrs[k])
  {
    var org := if name in attrs then attrs[name] else "";
    attrs[name := if org != "" then org + " " + val else val]
  }

  /** A class list gains exactly the new class, after the ones it had. */
  lemma MergeAttrClasses(attrs: map<string, string>, name: string, val: string)
    requires ' ' !in val
    ensures var org := if name in attrs then attrs[name] else "";
      Split(MergeAttr(attrs, name, val)[name], ' ') == if org == "" then [val] else Split(org, ' ') + [val]
  {
    var org := if name in attrs then attrs[name] else "";
    SplitFree(val, ' ');
    if org != "" {
      SplitConcat(org, val, ' ');
      assert org + " " + val == org + [' '] + val;
    }
  }

  /** The field after `set_required_fields` saw it. */
  function MarkRequired(f: Field, chosen: seq<string>): Field {
    if f.name in chosen then f.(required := true) else f
  }

  /** A field whose widget gained the class `select_component`. */
  function WithSelectClass(f: Field): Field {
    f.(widget := f.widget.(attrs := MergeAttr(f.widget.attrs, "class", SelectComponentClass)))
  }

  /** The field after `add_select_component` saw it. */
  function MarkSelect(f: Field, chosen: seq<string>): Field {
    if f.name in chosen && f.widget.isSelect then WithSelectClass(f) else f
  }

  /** The layout items `row_div` accepts: a field name, or a `PrependedText`
      around a field. */
  datatype LayoutItem = Name(name: string) | Prepended(field: string, text: string)

  /** `Div(item, css_class='col-md-<span> form-group')`. */
  datatype Column = Column(item: LayoutItem, cssClass: string)

  /** `Div(*columns, css_class='row')`. */
  datatype Row = Row(columns: seq<Column>, cssClass: string)

  function ColumnClass(span: int): string {
    "col-md-" + IntToString(span) + " form-group"
  }

  /** An item `row_div` leaves out: a hidden name, or a prefixed text around
      a hidden field. A `PrependedText` never equals a name. */
  predicate Skipped(item: LayoutItem, hiddenFields: seq<string>) {
    match item
    case Name(n) => n in hiddenFields
    case Prepended(f, _) => f in hiddenFields
  }

  /** The columns of `row_div(fnames, span, hidden_fields)`, in order. */
  function Columns(fnames: seq<LayoutItem>, span: int, hiddenFields: seq<string>): (r: seq<Column>)
    ensures |r| <= |fnames|
    ensures forall i :: 0 <= i < |r| ==> r[i].cssClass == ColumnClass(span) && !Skipped(r[i].item, hiddenFields)
    decreases |fnames|
  {
    if |fnames| == 0 then []
    else
      var n := |fnames|;
      var init := fnames[..n - 1];
      var last := fnames[n - 1];
      Columns(init, span, hiddenFields) + if Skipped(last, hiddenFields) then [] else [Column(last, ColumnClass(span))]
  }

  /** Every item that is not skipped gets a column of the given span, and
      no other column appears. */
  lemma {:induction false} ColumnsMembers(fnames: seq<LayoutItem>, span: int, hiddenFields: seq<string>)
    ensures forall c :: c in Columns(fnames, span, hiddenFields) <==>
              c.cssClass == ColumnClass(span) && c.item in fnames && !Skipped(c.item, hiddenFields)
    decreases |fnames|
  {
    if |fnames| > 0 {
      var init := fnames[..|fnames| - 1];
      ColumnsMembers(init, span, hiddenFields);
      assert fnames == init + [fnames[|fnames| - 1]];
    }
  }

  /** `row_div(fnames, span, hidden_fields)` in forms.py. */
  method RowDiv(fnames: seq<LayoutItem>, span: int, hiddenFields: seq<string>) returns (row: Row)
    ensures row == Row(Columns(fnames, span, hiddenFields), "row")
  {
    var divs: seq<Column> := [];
    for i := 0 to |fnames|
      invariant divs == Columns(fnames[..i], span, hiddenFields)
    {
      assert fnames[..i + 1][..i] == fnames[..i];
      var fname := fnames[i];
      if fname.Name? && fname.name in hiddenFields {
        continue;
      }
      if fname.Prepended? && fname.field in hiddenFields {
        continue;
      }
      divs := divs + [Column(fname, ColumnClass(span))];
    }
    assert fnames[..|fnames|] == fnames;
    row := Row(divs, "row");
  }

  function AsItems(names: seq<string>): (r: seq<LayoutItem>)
    ensures |r| == |names| && forall i :: 0 <= i < |r| ==> r[i] == Name(names[i])
  {
    seq(|names|, i requires 0 <= i < |names| => Name(names[i]))
  }

  /** The form mixin, on the fields of one form. */
  class Form {
    var fields: seq<Field>

    /** The fields come from a dictionary, so their names are distinct. */
    constructor(fields: seq<Field>)
      requires DistinctNames(fields)
      ensures this.fields == fields && Valid()
    {
      this.fields := fields;
    }

    /** `self.fields` is a dictionary: no two fields share a name. */
    predicate Valid()
      reads this
    {
      DistinctNames(fields)
    }

    /** `filter_fields(fields, exclude, include_all_if_empty)`: nothing when
        no name is given and the fallback to all fields is off; otherwise the
        visible fields, in form order, that are named (when names are given)
        and not excluded. */
    method FilterFields(names: seq<string>, exclude: seq<string>, includeAllIfEmpty: bool)
      returns (ret: seq<Field>)
      ensures ret == Selection(fields, names, exclude, includeAllIfEmpty)
    {
      if !includeAllIfEmpty && names == [] {
        return [];
      }
      ret := [];
      for i := 0 to |fields|
        invariant ret == Picks(fields[..i], names, exclude)
      {
        assert fields[..i + 1][..i] == fields[..i];
        var f := fields[i];
        if f.hidden {
          continue;
        }
        if names != [] && f.name !in names {
          continue;
        }
        if exclude != [] && f.name in exclude {
          continue;
        }
        ret := ret + [f];
      }
      assert fields[..|fields|] == fields;
    }

    /** `set_required_fields(fields)`: each selected field, looked up by name,
        becomes required; with no names that is every visible field. */
    method SetRequiredFields(names: seq<string>)
      requires Valid()
      modifies this
      ensures Valid()
      ensures |fields| == |old(fields)|
      ensures forall i :: 0 <= i < |fields| ==>
                fields[i] == if Picked(old(fields)[i], names, []) then old(fields)[i].(required := true) else old(fields)[i]
    {
      var chosen := FilterFields(names, [], true);
      ghost var before := fields;
      ghost var chosenNames := NamesOf(chosen);
      for j := 0 to |chosen|
        invariant |fields| == |before|
        invariant forall i :: 0 <= i < |fields| ==> fields[i] == MarkRequired(before[i], chosenNames[..j])
      {
        var name := chosen[j].name;
        var cur := fields;
        fields := seq(|cur|, i requires 0 <= i < |cur| =>
                        if cur[i].name == name then cur[i].(required := true) else cur[i]);
        assert chosenNames[..j + 1] == chosenNames[..j] + [name];
      }
      assert chosenNames[..|chosen|] == chosenNames;
      forall i | 0 <= i < |fields|
        ensures fields[i] == if Picked(before[i], names, []) then before[i].(required := true) else before[i]
      {
        PickedByName(before, names, [], i);
      }
    }

    /** `add_select_component(fields, exclude, include_all_if_empty)`: each
        selected field whose widget is a select gains the class
        `select_component`; nothing else changes. */
    method AddSelectComponent(names: seq<string>, exclude: seq<string>, includeAllIfEmpty: bool)
      requires Valid()
      modifies this
      ensures Valid()
      ensures |fields| == |old(fields)|
      ensures forall i :: 0 <= i < |fields| ==>
                fields[i] == if (includeAllIfEmpty || names != []) && Picked(old(fields)[i], names, exclude) && old(fields)[i].widget.isSelect
                             then WithSelectClass(old(fields)[i]) else old(fields)[i]
    {
      var chosen := FilterFields(names, exclude, includeAllIfEmpty);
      ghost var before := fields;
      ghost var chosenNames := NamesOf(chosen);
      PicksDistinct(fields, names, exclude);
      for j := 0 to |chosen|
        invariant |fields| == |before|
        invariant forall i :: 0 <= i < |fields| ==> fields[i] == MarkSelect(before[i], chosenNames[..j])
      {
        assert chosenNames[j] !in chosenNames[..j];
        var name := chosen[j].name;
        var cur := fields;
        fields := seq(|cur|, i requires 0 <= i < |cur| =>
                        if cur[i].name == name && cur[i].widget.isSelect then WithSelectClass(cur[i]) else cur[i]);
        assert chosenNames[..j + 1] == chosenNames[..j] + [name];
      }
      assert chosenNames[..|chosen|] == chosenNames;
      forall i | 0 <= i < |fields|
        ensures fields[i] == if (includeAllIfEmpty || names != []) && Picked(before[i], names, exclude) && before[i].widget.isSelect
                             then WithSelectClass(before[i]) else before[i]
      {
        if includeAllIfEmpty || names != [] {
          PickedByName(before, names, exclude, i);
        }
      }
    }

    /** The early exit of `as_readonly_fields`, `as_text_fields` and
        `as_hidden_fields`: with neither names nor exclusions they return at
        once. Past it each calls `filter_fields(self, …)` with one argument
        too many and raises `TypeError` before changing any field. */
    method EarlyExit(names: seq<string>, exclude: seq<string>) returns (r: Result<()>)
      ensures r.Ok? <==> names == [] && exclude == []
      ensures r.Raised? ==> r.error == TypeError
    {
      if names == [] && exclude == [] {
        return Ok(());
      }
      return Raised(TypeError);
    }

    /** The mixin's `row_div(fnames, span)`: the visible fields named in
        `fnames` (all of them if it is empty), laid out in form order. */
    method FieldsRowDiv(fnames: seq<string>, span: int) returns (row: Row)
      ensures row == Row(Columns(AsItems(NamesOf(Selection(fields, fnames, [], true))), span, []), "row")
    {
      var chosen := FilterFields(fnames, [], true);
      var names: seq<string> := [];
      for i := 0 to |chosen|
        invariant names == NamesOf(Picks(chosen[..i], [], []))
      {
        assert chosen[..i + 1] == chosen[..i] + [chosen[i]];
        PicksAppend(chosen[..i], [chosen[i]], [], []);
        if !chosen[i].hidden {
          names := names + [chosen[i].name];
        }
      }
      assert chosen[..|chosen|] == chosen;
      PicksVisible(chosen);
      row := RowDiv(AsItems(names), span, []);
    }
  }

  /** Fields already picked are visible, so picking them again with no names
      and no exclusions keeps them all. */
  lemma {:induction false} PicksVisible(fs: seq<Field>)
    requires forall f :: f in fs ==> !f.hidden
    ensures Picks(fs, [], []) == fs
    decreases |fs|
  {
    if |fs| > 0 {
      var init := fs[..|fs| - 1];
      assert forall f :: f in init ==> f in fs;
      PicksVisible(init);
      assert fs[|fs| - 1] in fs;
      assert init + [fs[|fs| - 1]] == fs;
    }
  }

  /** With no hidden names, every item gets its column, in order. */
  lemma {:induction false} ColumnsAllShown(items: seq<LayoutItem>, span: int)
    ensures var r := Columns(items, span, []);
      |r| == |items| && forall i :: 0 <= i < |r| ==> r[i] == Column(items[i], ColumnClass(span))
    decreases |items|
  {
    if |items| > 0 {
      ColumnsAllShown(items[..|items| - 1], span);
    }
  }

  /** The mixin lays out one column per visible field named in `fnames` (all
      of them if it is empty), in the order of the form rather than the order
      of `fnames`, and never a hidden field. */
  lemma RowDivColumns(fs: seq<Field>, fnames: seq<string>, span: int)
    ensures var picked := Selection(fs, fnames, [], true);
      var row := Columns(AsItems(NamesOf(picked)), span, []);
      && |row| == |picked|
      && (forall i :: 0 <= i < |row| ==>
            row[i] == Column(Name(picked[i].name), ColumnClass(span))
            && picked[i] in fs && !picked[i].hidden && (fnames == [] || picked[i].name in fnames))
      && (forall f :: f in fs && !f.hidden && (fnames == [] || f.name in fnames) ==>
            Column(Name(f.name), ColumnClass(span)) in row)
  {
    var picked := Selection(fs, fnames, [], true);
    PicksMembers(fs, fnames, []);
    var items := AsItems(NamesOf(picked));
    ColumnsAllShown(items, span);
    var row := Columns(items, span, []);
    forall i | 0 <= i < |row|
      ensures picked[i] in fs && !picked[i].hidden && (fnames == [] || picked[i].name in fnames)
    {
      assert picked[i] in picked;
    }
    forall f | f in fs && !f.hidden && (fnames == [] || f.name in fnames)
      ensures Column(Name(f.name), ColumnClass(span)) in row
    {
      assert f in picked;
      var i :| 0 <= i < |picked| && picked[i] == f;
      assert row[i] == Column(Name(f.name), ColumnClass(span));
    }
  }


  // ----- formsets with ext_data (forms.py:165-213, form.py:78-114) -----

  /** What the formset keeps from its constructor's keyword arguments:
      `ext_data` alone, when it was given. */
  function ExtParams(kwargs: map<string, Value>): (r: map<string, Value>)
    ensures "ext_data" in kwargs ==> r == map["ext_data" := kwargs["ext_data"]]
    ensures "ext_data" !in kwargs ==> r == map[]
  {
    if "ext_data" in kwargs then map["ext_data" := kwargs["ext_data"]] else map[]
  }

  /** The three `LB…FormSet` classes: the constructor pops `ext_data` from
      its keyword arguments, and each form built receives it. */
  class ExtDataFormSet {
    var extParams: map<string, Value>
    /** The keyword arguments passed on to the base formset. */
    var baseKwargs: map<string, Value>

    constructor(kwargs: map<string, Value>)
      ensures extParams == ExtParams(kwargs)
      ensures baseKwargs == kwargs - {"ext_data"}
    {
      var ext: map<string, Value> := map[];
      var rest := kwargs;
      if "ext_data" in kwargs {
        ext := ext["ext_data" := kwargs["ext_data"]];
        rest := rest - {"ext_data"};
      }
      extParams := ext;
      baseKwargs := rest;
    }

    /** The keyword arguments `_construct_form(i, **kwargs)` passes on:
        `kwargs` updated with the kept `ext_data`. */
    method ConstructFormKwargs(kwargs: map<string, Value>) returns (r: map<string, Value>)
      ensures r.Keys == kwargs.Keys + extParams.Keys
      ensures forall k :: k in extParams ==> r[k] == extParams[k]
      ensures forall k :: k in kwargs && k !in extParams ==> r[k] == kwargs[k]
    {
      r := kwargs + extParams;
    }
  }

  /** `ext_data` given to the formset reaches every form it builds, and
      overrides an `ext_data` of the form's own arguments; without it the
      form's arguments pass unchanged. */
  lemma ExtDataReachesForms(ctorKwargs: map<string, Value>, formKwargs: map<string, Value>)
    ensures "ext_data" in ctorKwargs ==>
              var r := formKwargs + ExtParams(ctorKwargs);
              "ext_data" in r && r["ext_data"] == ctorKwargs["ext_data"]
              && forall k :: k in formKwargs && k != "ext_data" ==> k in r && r[k] == formKwargs[k]
    ensures "ext_data" !in ctorKwargs ==> formKwargs + ExtParams(ctorKwargs) == formKwargs
  {
  }
}
