# lbutils in Dafny

This project models the core of `lbutils`, a set of Django helpers, and proves properties of that model.

- **`do_filter` (qs.py, and its older variant db.py).** It turns a request's query parameters into filters on a collection. A quick-search keyword becomes an OR of `icontains` lookups over text fields, plus exact lookups on numeric fields when the keyword is all digits. Every `q__<path>` parameter becomes either a keyword argument of `filter(...)` or an OR group of equality lookups AND-ed into a `Q`.
- **Values inside a parameter.** A value can be a field reference (`F__name`), a list for an `__in` lookup, a comma list, a boolean token (`__True`, `__False`) or, in db.py, a `d__` date.
- **The choice lists of the date selectors** and the two-digit month rendering.
- **Request helpers:** `get_pks`, `request_get_next`, `get_client_ip` and `forms_is_valid`.
- **Widgets:**
  - the option list of the "just selected" select;
  - its read-only label;
  - its `_has_changed`;
  - the text a `TextWidget` shows in place of another widget.
- **The form mixin:**
  - picking fields by name;
  - making them required;
  - giving select widgets the `select_component` class;
  - the `row_div` layout.
- **The formsets that pass `ext_data`** to every form they build.
- **The `get_setting` template tag.**

Modules follow the source files.

- `Strings` and `Python` hold the Python string operations and values the code relies on:
  - truthiness, `"%s" %`, `split`/`join`, `zfill`, `isdigit`;
  - the exceptions raised, as a `Result`.
- `Query` holds Django's `Q` objects as a tree.
  - Combining with an empty `Q()` gives the other operand, as `Q._combine` does.
  - An abstract evaluator says which records a tree keeps, given which single `path = value` lookups a record satisfies.
- `Qs`, `Db`, `DateUtils`, `Views`, `View`, `Widgets`, `Forms` and `TemplateTags` model the files of those names.

Each file is modelled in the Python it runs under.
- qs.py is Python 3: it holds a literal `'，'` without a coding line, and tests `isinstance(v, str)`.
- db.py is Python 2: it names `unicode`.
- In both, request values are modelled as one text type.

`qdata` is a dictionary, so its keys are distinct. The model's list of pairs reads the quick-search key at its first occurrence (`Qs.ItemGet`) and lets the last assignment to a key win (`Qs.Build`). The two never disagree on distinct keys.

Where the source changes state, the model does too:
- the form mixin is a class whose `fields` its methods update;
- the formset class keeps `ext_params`;
- the template tag writes into a `Context` object;
- loops are methods with loop invariants, each proved equal to a specification function about which the lemmas speak.

The collection's `filter` is a function parameter that returns a result or raises. Records are known only through a satisfaction relation. The date parser `strptime` and the current year are also parameters.

A failing filter request does not always give back the collection it was handed. Each `filter` call that succeeds replaces `qs` before the next one runs. So when the structured filter raises, `do_filter` returns the collection the quick search already filtered (`Qs.Filtered`, `Db.Filtered`).

## Model

| member | source | states |
|---|---|---|
| Qs.QuickQuery | lbutils/qs.py:68-79 | the quick-search `Q`: `Q()` for a falsy keyword, `AttributeError` for a truthy non-string (no `isdigit`), otherwise the OR of the leaves |
| Qs.GenQuickQueryParams | lbutils/qs.py:68-79 | the loop `q = q \| Q(**d)` over text fields, then over numeric fields for digit text, builds exactly `QuickQuery` |
| Qs.QuickQueryMeaning | lbutils/qs.py:68-79 | a falsy keyword filters nothing out. A record matches other text iff some text field contains it, or (digit text only) some numeric field equals it. With no field to match, the result is `Q()` |
| Qs.QuickQueryShape | lbutils/qs.py:72-78 | the leaves are the `icontains` lookups in field order, then the exact lookups; the latter appear iff the text is all digits and there is a numeric field |
| Qs.ContainsLeaves | lbutils/qs.py:72-74 | one `icontains` leaf per text field |
| Qs.ExactLeaves | lbutils/qs.py:76-78 | one exact leaf per numeric field |
| Qs.ContainsLeavesHold | lbutils/qs.py:72-74 | some substring leaf holds iff the `icontains` lookup of some text field holds |
| Qs.ExactLeavesHold | lbutils/qs.py:76-78 | some exact leaf holds iff the lookup of some numeric field holds |
| Qs.Classify | lbutils/qs.py:85-108 | what one parameter contributes. Keys without `q__` and empty or None values are skipped. A keyword is stored under the key without `q__`. An OR group comes only from a string value |
| Qs.GenQueryParams | lbutils/qs.py:82-109 | the loop over `qdata.items()` returns exactly the parameters applied in order (`Build`) |
| Qs.BuildLastPutWins | lbutils/qs.py:88-108 | a keyword argument holds the value of the last parameter that sets that key |
| Qs.BuildKwFromPuts | lbutils/qs.py:88-108 | every keyword argument comes from a parameter that sets it; comma OR groups never add one |
| Qs.BuildPredicateMeaning | lbutils/qs.py:99-105 | a record satisfies the built `q` iff it satisfies every comma OR group |
| Qs.CommaGroupMeaning | lbutils/qs.py:99-105 | a comma group is satisfied iff the path equals one of its non-empty, comma-free tokens; a list of only commas constrains nothing |
| Qs.ClassifyQueryParam | lbutils/qs.py:94-108 | writing an expressible constraint as a parameter and classifying it gives the constraint back. `F__` takes precedence over `__in`, and `__in` over a comma group, and only strings are coerced to booleans |
| Qs.ClassifyFieldRef | lbutils/qs.py:95-96 | an `F__name` value becomes `F(name)` |
| Qs.ClassifyTokenList | lbutils/qs.py:97-105 | comma-joined clean tokens become the token list on an `__in` path, otherwise an OR group of those tokens |
| Qs.ClassifyPlain | lbutils/qs.py:88-108 | a plain value comes back unchanged; a boolean written as `__True`/`__False` comes back as the boolean |
| Qs.ExampleBoolean | lbutils/qs.py:106-107 | `q__is_active=__False` sets `is_active` to `False` |
| Qs.ExampleNumber | lbutils/qs.py:106-108 | `q__price=100` sets `price` to the string `"100"` |
| Qs.ExampleInList | lbutils/qs.py:97-98 | `q__name__in=book-02,book-03` sets `name__in` to `["book-02", "book-03"]` |
| Qs.ExampleFieldRef | lbutils/qs.py:95-96 | `q__name__gt=F__name` sets `name__gt` to `F("name")` |
| Qs.ExampleCommaGroup | lbutils/qs.py:99-105 | `q__name__icontains=ook-02,ook-03` AND-s `Q(name__icontains="ook-02") \| Q(name__icontains="ook-03")` into `q` |
| Qs.DoFilter | lbutils/qs.py:45-65 | `do_filter` never raises. It returns the collection as the last `filter` call that did not raise left it (`Filtered`) |
| Qs.DoFilterSelects | lbutils/qs.py:45-65 | over a collection whose `filter` keeps exactly the matching records: if the quick query raises, the result is the input; otherwise it holds exactly the input records matching both the quick query and the structured parameters |
| Qs.DoFilterIdempotent | lbutils/qs.py:45-65 | over such a collection, filtering the result again with the same request changes nothing |
| Qs.SelectMembers | lbutils/qs.py:55-61 | an exact `filter(q, **kw)` keeps exactly the records that satisfy `q` and every keyword lookup |
| Qs.SelectKeepsAll | lbutils/qs.py:55-61 | an exact filter keeps a collection whose records all match |
| Db.QuickQuery | lbutils/db.py:28-35 | the older quick search: `Q()` for a falsy keyword, otherwise the OR of the `icontains` leaves |
| Db.GenQuickQueryParams | lbutils/db.py:28-35 | the loop builds exactly `QuickQuery` |
| Db.QuickQueryAgrees | lbutils/db.py:28-35 | on text or a falsy value, the older quick search is the newer one without numeric fields. On a truthy non-string the newer one raises and the older one does not |
| Db.Classify | lbutils/db.py:42-70 | only a `d__` date that does not parse raises (`ValueError`). A non-string value is stored under the full key, `q__` included. An OR group comes only from a string value |
| Db.GenQueryParams | lbutils/db.py:38-71 | the loop returns exactly `Build`: the first raising parameter's error, or all parameters applied in order |
| Db.BuildRaisedPrefix | lbutils/db.py:38-71 | once a prefix of the parameters raises, the whole loop raises the same error |
| Db.BuildRaises | lbutils/db.py:51-56 | the older builder raises iff some date parameter fails to parse |
| Db.ClassifyDate | lbutils/db.py:51-56 | a `q__d__<path>` parameter with text is the parsed date under `<path>`, or `ValueError` |
| Db.ClassifyAgrees | lbutils/db.py:42-70 | for a string or None value whose key is not a date key, the older classification equals the newer one |
| Db.BuildAgrees | lbutils/db.py:38-71 | on such parameters the older builder builds exactly what the newer one does |
| Db.ClassifyKeepsPrefix | lbutils/db.py:42-46 | a non-string, non-None value is stored under the key with `q__` still on it, unlike in qs.py |
| Db.NumericParameterKeepsPrefix | lbutils/db.py:42-46 | `{"q__price": 100}` yields the keyword `q__price` in db.py and `price` in qs.py |
| Db.DoFilter | lbutils/db.py:15-25 | `do_filter` of db.py never raises and returns `Filtered`: both filter calls share one `try` |
| Db.DoFilterSelects | lbutils/db.py:15-25 | over an exact filter, an unparsable date leaves the quick search applied. Otherwise the result holds exactly the records matching the quick search and the parameters |
| DateUtils.FmtMonth | lbutils/dateutils.py:30-33 | a falsy month is returned unchanged. Other values become their text left-padded with zeros to at least two characters; digit text stays digits and ends with the original |
| Strings.ZFill | lbutils/dateutils.py:33 | `zfill(width)` gives `width` characters when the text is shorter: the leading sign (if any) is kept, zeros follow, and the rest of the text ends the result. Text at least `width` long is unchanged |
| DateUtils.FmtMonthExamples | lbutils/tests/tests.py:20-22 | `"1"` gives `"01"`, `"12"` stays, and `""` and `None` are returned as they are |
| DateUtils.FmtMonthIdempotent | lbutils/dateutils.py:30-33 | formatting a formatted month changes nothing |
| DateUtils.MonthPadded | lbutils/dateutils.py:27-33 | the number `m` formats to the `m`-th month key |
| DateUtils.MonthChoices | lbutils/dateutils.py:7-24 | twelve `(key, key)` pairs `"01"`..`"12"` in order, after a `("", label)` entry iff the blank label is truthy |
| DateUtils.GetMonthChoices | lbutils/dateutils.py:7-24 | the literal list and the optional insert give exactly `MonthChoices` |
| DateUtils.MonthChoicesConstants | lbutils/dateutils.py:7-27 | `MONTH_CHOICES` has the twelve months without a blank; the default list puts `------` in front of the same twelve |
| DateUtils.YearChoices | lbutils/dateutils.py:36-42 | the consecutive years from `year+start` up to but not including `year+end`, each its own label, after a blank entry iff the label is truthy |
| DateUtils.GetYearChoices | lbutils/dateutils.py:36-42 | the list built is exactly `YearChoices` |
| DateUtils.YearChoicesConsecutive | lbutils/dateutils.py:39 | each listed year is one more than the one before it |
| DateUtils.YearChoicesEmpty | lbutils/dateutils.py:39 | an empty or reversed range lists no year |
| DateUtils.YearChoicesDefaults | lbutils/tests/tests.py:25-28 | with the defaults, seven years from five back to next year; with the `------` label the first key is blank |
| Views.KeepTruthy | lbutils/views.py:17 | the kept values are all truthy, and there are at most as many as given |
| Views.KeepTruthyMembers | lbutils/views.py:17 | a value is kept iff it occurs in the list and is truthy |
| Views.KeepTruthyCounts | lbutils/views.py:17 | each truthy value is kept as many times as it occurs; falsy ones never |
| Views.KeepTruthyAll | lbutils/views.py:17 | a list with no falsy value passes unchanged |
| Views.KeepTruthyAppend | lbutils/views.py:17 | filtering keeps order: it distributes over concatenation |
| Views.KeepTruthyIdempotent | lbutils/views.py:17 | filtering twice is filtering once |
| Views.GetPks | lbutils/views.py:13-20 | `[]` when there is no `getlist` or no such key, else the truthy values listed under the key |
| Python.PyOr | lbutils/views.py:28-31 | `a or b` is one of its operands, and it is `a` whenever `a` is truthy |
| Views.RequestGetNext | lbutils/views.py:23-32 | the first truthy of `POST.next`, `GET.next` and `HTTP_REFERER`, else the default |
| Views.RequestGetNextTruthy | lbutils/views.py:23-32 | the result is truthy iff one of the four candidates is |
| View.RequestGetNext | lbutils/view.py:8-16 | the older if-chain returns exactly what the `or` chain of views.py returns |
| Views.GetClientIp | lbutils/views.py:73-79 | with a non-empty `X-Forwarded-For`: its text up to the first comma, untrimmed. Otherwise `REMOTE_ADDR`, which may be missing |
| Views.GetClientIpChain | lbutils/view.py:19-25 | a chain `client,proxies` gives the client |
| Views.FormsIsValid | lbutils/views.py:90-94 | true iff every form is valid. `is_valid()` is called on the forms up to and including the first invalid one, and no further |
| Widgets.SelectedSet | lbutils/widgets.py:28 | the texts of the truthy selected values |
| Widgets.CollectSelected | lbutils/widgets.py:28 | the comprehension builds exactly `SelectedSet` |
| Widgets.RenderEntry | lbutils/widgets.py:36-46 | the output for one entry is exactly `EntryOutput` |
| Widgets.RenderOptions | lbutils/widgets.py:25-47 | the output for the widget's own choices followed by the given ones is exactly `Output` |
| Widgets.OutputSinglesSelected | lbutils/widgets.py:43-46 | without groups, the rendered options are exactly the entries whose value text is selected |
| Widgets.GroupOutput | lbutils/widgets.py:36-42 | a group always renders its opening and closing markers. Its members appear iff the text `[0]` is selected |
| Widgets.GroupMemberKeyText | lbutils/widgets.py:39 | `force_unicode([0])` is the text `[0]` |
| Widgets.GroupMemberSelectedIsDropped | lbutils/widgets.py:39 | a group `g` holding option `a`, with `a` selected, renders only the group markers |
| Widgets.SelectedMembers | lbutils/widgets.py:38-41 | the members of a group whose value text is selected |
| Widgets.IntendedOutputSelected | lbutils/widgets.py:35-46 | with the intended test, an option is rendered iff its value text is selected, whether at top level or inside a group |
| Widgets.ReadonlyLabel | lbutils/widgets.py:49-56 | the label of the first choice whose value reads as `value` does, or `""` |
| Widgets.RenderReadonly | lbutils/widgets.py:53-56 | the loop returns exactly `ReadonlyLabel` |
| Widgets.HasChanged | lbutils/widgets.py:78-87 | the same data never counts as changed, nor do two lists that are each missing or empty |
| Widgets.HasChangedNone | lbutils/widgets.py:79-82 | a missing list counts as an empty one |
| Widgets.HasChangedMeaning | lbutils/widgets.py:78-87 | lists of different lengths have changed. Lists of equal length have changed iff their sets of value texts differ |
| Widgets.HasChangedPermutation | lbutils/widgets.py:78-87 | a reordering is not a change |
| Widgets.HasChangedSymmetric | lbutils/widgets.py:78-87 | the comparison is symmetric |
| Widgets.HasChangedIgnoresMultiplicity | lbutils/widgets.py:83-87 | `[a, a, b]` against `[a, b, b]` counts as unchanged, though the multisets differ |
| Widgets.ValueTexts | lbutils/widgets.py:116-119 | the texts of a list's items, or the one text of any other value |
| Widgets.SelectedLabels | lbutils/widgets.py:120-123 | every label kept belongs to a choice whose value text is among the texts, and every such choice's label is kept |
| Widgets.Description | lbutils/widgets.py:110-131 | per source widget: the read-only label, the comma-joined selected labels, `√`/`×`, the raw value for a textarea, or the text (`""` for None) |
| Widgets.SelectDescription | lbutils/widgets.py:115-124 | the loop builds exactly the select description |
| Widgets.SelectDescriptionLabels | lbutils/widgets.py:120-124 | when at least one label is selected and no label holds a comma, splitting the description at commas gives back the selected labels, in choice order |
| Forms.Picks | lbutils/forms.py:122-131 | every picked field is visible, named in `names` (if given) and not excluded |
| Forms.PicksMembers | lbutils/forms.py:122-131 | a field is picked iff it is in the form and passes those three tests |
| Forms.PicksAppend | lbutils/forms.py:122-131 | picking keeps form order: it distributes over concatenation |
| Forms.PicksDistinct | lbutils/forms.py:122-131 | picking from fields with distinct names gives distinct names |
| Forms.PickedByName | lbutils/forms.py:86-87 | with distinct names, looking a picked field up by name finds a field iff that field is picked |
| Forms.Selection | lbutils/forms.py:114-131 | `[]` when no names are given and that does not mean all; otherwise only picked fields |
| Forms.SelectionMembers | lbutils/forms.py:114-131 | with names, or with all meant, the selection is exactly the picked fields of the form |
| Forms.Form.FilterFields | lbutils/forms.py:114-131 | the loop over the visible fields returns exactly `Selection` |
| Forms.Form.SetRequiredFields | lbutils/forms.py:133-137 | exactly the picked fields become required (all visible ones when no names are given); nothing else changes |
| Forms.Form.AddSelectComponent | lbutils/forms.py:78-90 | exactly the picked fields with a select widget gain the class `select_component`; nothing else changes |
| Forms.MergeAttr | lbutils/forms.py:89-90 | the attribute ends with the new value; every other attribute is unchanged |
| Forms.MergeAttrClasses | lbutils/forms.py:89-90 | the class list gains exactly the new class, after the classes it had |
| Forms.Form.EarlyExit | lbutils/forms.py:48-71 | with neither names nor exclusions the helpers return at once. Otherwise they raise `TypeError`, because they pass the form twice to `filter_fields` |
| Forms.Columns | lbutils/forms.py:224-234 | each column has the class `col-md-<span> form-group` and holds an item that is not hidden |
| Forms.ColumnsMembers | lbutils/forms.py:224-234 | an item gets a column iff it is not a hidden name and not a `PrependedText` around a hidden field |
| Forms.ColumnsAllShown | lbutils/forms.py:224-234 | with no hidden names, every item gets its column, in order |
| Forms.RowDiv | lbutils/forms.py:224-234 | the loop builds exactly `Columns`, wrapped in a `row` |
| Forms.Form.FieldsRowDiv | lbutils/forms.py:143-146 | the mixin's `row_div` lays out the names of the selected visible fields |
| Forms.PicksVisible | lbutils/forms.py:145 | re-filtering picked fields for visibility keeps them all |
| Forms.RowDivColumns | lbutils/forms.py:143-146 | one column per visible field named in `fnames` (all when empty), in form order and not `fnames` order, and never a hidden field |
| Forms.ExtParams | lbutils/forms.py:171-175 | only `ext_data` is kept, and only when given |
| Forms.ExtDataFormSet.constructor | lbutils/forms.py:171-175 | keeps `ext_data` and passes the other keyword arguments on |
| Forms.ExtDataFormSet.ConstructFormKwargs | lbutils/forms.py:177-179 | each form receives its own arguments with the kept `ext_data` overriding |
| Forms.ExtDataReachesForms | lbutils/form.py:80-88 | `ext_data` given to the formset reaches every form; without it the form arguments pass unchanged |
| TemplateTags.ResolveDefault | lbutils/templatetags/lbutils.py:20-21 | a default whose text starts with `$.` is replaced by the named setting; a missing one raises `AttributeError` |
| TemplateTags.SettingValue | lbutils/templatetags/lbutils.py:20-22 | the setting `key` if present, else the resolved default. A failing `$.` reference raises even when `key` exists |
| TemplateTags.SettingRefOnlyFromText | lbutils/templatetags/lbutils.py:20 | None, booleans, numbers and lists never trigger the `$.` lookup |
| TemplateTags.MissingReferenceRaisesEvenWhenKeyExists | lbutils/templatetags/lbutils.py:20-22 | a `$.` default naming a missing setting raises although `key` exists |
| TemplateTags.ReferenceStandsIn | lbutils/templatetags/lbutils.py:20-22 | a `$.` default naming an existing setting stands in for a missing `key` |
| TemplateTags.GetSetting | lbutils/templatetags/lbutils.py:11-26 | a raise leaves the context unchanged. A falsy `as_key` returns the value, context unchanged. Otherwise only `context[as_key]` is set and `""` is returned |
| Query.QOr | lbutils/qs.py:72-78 | `a \| b` is `Q()` only when both sides are; its leaves are those of `a` followed by those of `b`, so a `Q()` side leaves no trace |
| Query.QAnd | lbutils/qs.py:104 | `a & b` is `Q()` only when both sides are; its leaves are those of `a` followed by those of `b` |
| Query.Normalize | lbutils/qs.py:94 | the replacement keeps the length, leaves no full-width comma and changes no other character |
| Query.Coerce | lbutils/qs.py:106-107 | `__True` and `__False` become the booleans; any other text stays the same string |
| Query.AnyOfShape | lbutils/qs.py:100-103 | OR-ing leaves in turn gives a disjunction of exactly those leaves, in order; it is `Q()` only when there are none |
| Query.AnyOfEval | lbutils/qs.py:100-103 | an OR of leaves holds iff one leaf holds, except that an OR of none is `Q()` and keeps everything |
| Query.EvalAnd | lbutils/qs.py:104 | `&` with `Q()` on either side is neutral, so a conjunction holds iff both sides hold |
| Query.CommaTokens | lbutils/qs.py:97-103 | the tokens of `[e for e in v.split(',') if e]` are non-empty and hold no comma |
| Query.CommaTokensJoin | lbutils/qs.py:97-103 | clean tokens joined by commas split back into the same tokens |
| Query.NormalizeIdentity | lbutils/qs.py:94 | text without a full-width comma is unchanged by the replacement |
| Query.OrGroupEval | lbutils/qs.py:100-103 | an OR group holds iff the path equals one of the tokens; with no token it is `Q()` |

## Left out

- Evaluating lookups against a database: the collection's `filter` is a parameter, and records are known only by which lookups they satisfy.
- The aggregates and fetch helpers of qs.py and db.py (`get_sum`, `get_max`, `get_or_none`, `get_pk_or_none`): they are direct ORM calls.
- `traceback.print_exc()` in `do_filter`: output only.
- Date parsing in db.py: `strptime(v, "%Y-%m-%d")` is a parameter returning a date or nothing.
- The current year in `get_year_choices`: a parameter, since the code reads it from the clock.
- `fmt_datetime`, `utils.py` and `xlsxutils.py`: not part of this model.
- HTML: `render_option`, `escape`, `flatatt`, `gen_output`, `render_hidden` and the `'\n'.join` of `render_options` are left out. The model keeps the rendered pieces as data.
- Narrowing a `ModelChoiceIterator` queryset to the selected keys in `render_options` and `render_readonly`: ORM.
- `has_any_perm`, `render_json`, `save_formset`, `create_formset` and `get_post_data`: they call Django and the ORM.
- `add_empty_form_plus_for_fs`: it calls into Django's formset internals.
- The crispy-forms layout objects, `init_crispy_helper` and `QuickSearchForm`'s layout: they are kept as plain data (`Column`, `Row`) or left out.
- `check_uniqe` and `errors_as_text`: ORM and Django error lists.
- `add_attr2fields`, `add_class2fields`, `as_param_ext_val` and `QuickSearchForm.__init__`: they call `filter_fields(self, …)` with the form passed twice, so they always raise `TypeError`. The attribute merge they would apply is `Forms.MergeAttr`.
- `as_readonly_fields`, `as_text_fields` and `as_hidden_fields` are modelled by their early exit and that same `TypeError` (`Forms.Form.EarlyExit`); their widget replacement is never reached.
- Forms.Form.EarlyExit: does not model the form's state, because the helpers either return or raise before changing anything.
- Python.Repr: escaping of quotes inside strings is not modelled.
- Strings.IsDigits: ASCII digits only; Python's `isdigit` also accepts other Unicode digits.
- TemplateTags.ResolveDefault: a non-string default whose text starts with `$.` is taken to be unsliceable and to raise `TypeError`.
- TemplateTags.GetSetting: a falsy `as_key` other than `None` or `""` (such as `0`) is not modelled.
- The collection's own state after a `filter` call that raised: the model assumes a raising call changes nothing.

## Findings

| source | as written | input that shows it | evidently intended | confidence | as-written member | corrected member |
|---|---|---|---|---|---|---|
| lbutils/db.py:42-46 | a value that is not a string is stored under the key before `q__` is stripped | `{"q__price": 100}` gives the keyword `q__price`, which names no field | strip `q__` first, as qs.py:86-87 does, giving `price` | not executed | Db.NumericParameterKeepsPrefix | Qs.Classify |
| lbutils/widgets.py:39 (also lbutils/form.py:38) | an option inside a group is shown only when the text `[0]` is selected | group `g` holding option `a`, with `a` selected, renders an empty group | test the option's own value, `force_unicode(option[0])` | not executed | Widgets.GroupMemberSelectedIsDropped | Widgets.IntendedOutputSelected |
