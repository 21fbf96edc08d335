/**
 * Writing a value into a discovered field, by question type: text and
 * paragraph questions get the value in their input, date questions get a
 * normalised ISO date, radio questions get a click on the first option
 * whose label equals the value, checkbox questions a click on every option
 * whose label equals one of the values, and dropdowns the value of the
 * first option whose text contains the value. Each branch is a method on
 * the container and its controls, specified by a plan: what it reports,
 * what it writes into the branch's control and which clicks and events it
 * produces.
 */
module Writer {

  import opened Optional
  import opened JsText
  import opened Dom
  import opened Classifier
  import opened Discovery
  import opened Dates

  /** Whether the call returns normally or throws (a TypeError from a
      string method applied to an array or to a missing option text). */
  datatype Status = Completed | Threw

  /** What one call does: its status, the string assigned to the branch's
      control (if any) and the clicks and events it produces, in order. */
  datatype Plan = Plan(status: Status, written: Option<string>, effects: seq<Effect>)

  const Nothing: Plan := Plan(Completed, None, [])

  /** The control a branch assigns to, or null for branches that only click. */
  function Target(c: Container, kind: QuestionType): Control? {
    match kind
    case Text => c.textInput
    case Paragraph => c.textInput
    case Date => c.dateInput
    case Dropdown => c.dropdown
    case _ => null
  }

  /** Everything a call may change: the container's log and the target. */
  function Footprint(c: Container, kind: QuestionType): set<object> {
    if Target(c, kind) == null then {c} else {c, Target(c, kind)}
  }

  // ----- text and paragraph -----

  /** Assigning a value to `input.value` converts an array to its
      comma-joined string. */
  function AsText(value: Value): string {
    match value
    case Single(text) => text
    case Many(items) => Join(items, ",")
  }

  function TextPlan(c: Container, value: Value): Plan {
    if c.textInput == null then Nothing
    else Plan(Completed, Some(AsText(value)), [Dispatched(InputEvent, c.textInput)])
  }

  method FillText(c: Container, value: Value) returns (status: Status)
    modifies c, c.textInput
    ensures var p := TextPlan(c, value);
      status == p.status && c.log == old(c.log) + p.effects &&
      (c.textInput != null ==> c.textInput.value == if p.written.Some? then p.written.value else old(c.textInput.value))
  {
    var input := c.textInput;
    if input == null {
      return Completed;
    }
    input.value := AsText(value);
    c.log := c.log + [Dispatched(InputEvent, input)];
    status := Completed;
  }

  // ----- date -----

  /** The date the field receives for a text, `NormalizeDate` with the
      given host parser. */
  function Normalizer(hostParse: string -> Option<string>): string -> Option<string> {
    (text: string) => NormalizeDate(text, hostParse)
  }

  /** The date branch, with `normalize` choosing the date for a text. */
  function DatePlan(c: Container, value: Value, normalize: string -> Option<string>): Plan {
    if c.dateInput == null then Nothing
    else
      match value
      case Many(_) => Plan(Threw, None, [])
      case Single(text) =>
        match normalize(text)
        case None => Nothing
        case Some(date) =>
          Plan(Completed, Some(date), [Dispatched(InputEvent, c.dateInput), Dispatched(ChangeEvent, c.dateInput)])
  }

  /** `hostParse` stands for `new Date(value)` followed by the date part of
      `toISOString()`, None when the date is invalid. */
  method FillDate(c: Container, value: Value, hostParse: string -> Option<string>) returns (status: Status)
    modifies c, c.dateInput
    ensures var p := DatePlan(c, value, Normalizer(hostParse));
      status == p.status && c.log == old(c.log) + p.effects &&
      (c.dateInput != null ==> c.dateInput.value == if p.written.Some? then p.written.value else old(c.dateInput.value))
  {
    var input := c.dateInput;
    if input == null {
      return Completed;
    }
    if value.Many? {
      return Threw;
    }
    var dateValue := ParseItalianDate(value.text);
    if dateValue.None? {
      if IsIsoDate(value.text) {
        dateValue := Some(value.text);
      } else {
        dateValue := hostParse(value.text);
        if dateValue.None? {
          return Completed;
        }
      }
    }
    input.value := dateValue.value;
    c.log := c.log + [Dispatched(InputEvent, input), Dispatched(ChangeEvent, input)];
    status := Completed;
  }

  // ----- radio -----

  /** The radio and checkbox comparison: the label's text, trimmed and
      lower-cased, equals the lower-cased value (which is not trimmed). */
  predicate LabelIs(value: string, caption: string) {
    Lower(Trim(caption)) == Lower(value)
  }

  /** The first index from `from` below both `n` and the number of labels
      whose label agrees with `value` under `same`. */
  function FirstIndex(n: nat, labels: seq<string>, same: (string, string) -> bool, value: string, from: nat)
    : (r: Option<nat>)
    ensures r.Some? ==> from <= r.value < n && r.value < |labels| && same(value, labels[r.value]) &&
                        forall j :: from <= j < r.value ==> !same(value, labels[j])
    ensures r.None? ==> forall j :: from <= j < n && j < |labels| ==> !same(value, labels[j])
    decreases n - from
  {
    if from >= n || from >= |labels| then None
    else if same(value, labels[from]) then Some(from)
    else FirstIndex(n, labels, same, value, from + 1)
  }

  /** A single value clicks the first option whose label agrees with it; an
      array throws as soon as a label is compared with it. The comparison
      is `same`, which `FillFormField` instantiates with `LabelIs`. */
  function RadioPlan(c: Container, value: Value, same: (string, string) -> bool): Plan {
    match value
    case Many(_) => if 0 < c.radioCount && 0 < |c.radioLabels| then Plan(Threw, None, []) else Nothing
    case Single(text) =>
      match FirstIndex(c.radioCount, c.radioLabels, same, text, 0)
      case None => Nothing
      case Some(i) => Plan(Completed, None, [Clicked(i)])
  }

  method FillRadio(c: Container, value: Value, same: (string, string) -> bool) returns (status: Status)
    modifies c
    ensures var p := RadioPlan(c, value, same);
      status == p.status && c.log == old(c.log) + p.effects
  {
    var i := 0;
    while i < c.radioCount
      invariant value.Single? ==>
        FirstIndex(c.radioCount, c.radioLabels, same, value.text, 0) ==
        FirstIndex(c.radioCount, c.radioLabels, same, value.text, i)
      invariant value.Many? ==> i == 0 || |c.radioLabels| == 0
      invariant c.log == old(c.log)
      decreases c.radioCount - i
    {
      if i < |c.radioLabels| {
        if value.Many? {
          return Threw;
        }
        if same(value.text, c.radioLabels[i]) {
          c.log := c.log + [Clicked(i)];
          return Completed;
        }
      }
      i := i + 1;
    }
    status := Completed;
  }

  // ----- checkbox -----

  /** `Array.isArray(value) ? value : [value]`. */
  function Values(value: Value): seq<string> {
    match value
    case Single(text) => [text]
    case Many(items) => items
  }

  /** Some value agrees with the label. */
  predicate AnyAgrees(same: (string, string) -> bool, values: seq<string>, caption: string) {
    exists v | v in values :: same(v, caption)
  }

  /** The indices below `n` (and below the number of labels) whose label
      agrees with some value, in increasing order. */
  function Chosen(n: nat, labels: seq<string>, same: (string, string) -> bool, values: seq<string>): seq<nat> {
    if n == 0 then []
    else
      Chosen(n - 1, labels, same, values) +
      (if n - 1 < |labels| && AnyAgrees(same, values, labels[n - 1]) then [n - 1] else [])
  }

  function Clicks(indices: seq<nat>): (r: seq<Effect>)
    ensures |r| == |indices|
    ensures forall k :: 0 <= k < |r| ==> r[k] == Clicked(indices[k])
  {
    seq(|indices|, k requires 0 <= k < |indices| => Clicked(indices[k]))
  }

  /** A click on every option whose label agrees with one of the values. */
  function CheckboxPlan(c: Container, value: Value, same: (string, string) -> bool): Plan {
    Plan(Completed, None, Clicks(Chosen(c.checkboxCount, c.checkboxLabels, same, Values(value))))
  }

  method FillCheckbox(c: Container, value: Value, same: (string, string) -> bool) returns (status: Status)
    modifies c
    ensures var p := CheckboxPlan(c, value, same);
      status == p.status && c.log == old(c.log) + p.effects
  {
    var values := Values(value);
    for i := 0 to c.checkboxCount
      invariant c.log == old(c.log) + Clicks(Chosen(i, c.checkboxLabels, same, values))
    {
      ghost var before := Chosen(i, c.checkboxLabels, same, values);
      if i < |c.checkboxLabels| && AnyAgrees(same, values, c.checkboxLabels[i]) {
        assert Clicks(before + [i]) == Clicks(before) + [Clicked(i)];
        c.log := c.log + [Clicked(i)];
      } else {
        assert Chosen(i + 1, c.checkboxLabels, same, values) == before + [];
      }
    }
    status := Completed;
  }

  // ----- dropdown -----

  /** The dropdown comparison: the option text, trimmed and lower-cased,
      contains the lower-cased value. */
  predicate Includes(value: string, text: string) {
    Contains(Lower(Trim(text)), Lower(value))
  }

  /** The outcome of the `find` over the options. */
  datatype Pick = Picked(index: nat) | NoMatch | NoText

  /** The first option from `from` whose text satisfies `includes` for
      `value`; reaching an option without a `text` property throws. */
  function FirstOption(options: seq<OptionElement>, includes: (string, string) -> bool, value: string, from: nat)
    : (r: Pick)
    ensures r.Picked? ==> from <= r.index < |options| && options[r.index].text.Some? &&
                          includes(value, options[r.index].text.value) &&
                          forall j :: from <= j < r.index ==>
                            options[j].text.Some? && !includes(value, options[j].text.value)
    ensures r.NoMatch? <==> forall j :: from <= j < |options| ==>
                              options[j].text.Some? && !includes(value, options[j].text.value)
    decreases |options| - from
  {
    if from >= |options| then NoMatch
    else
      match options[from].text
      case None => NoText
      case Some(text) => if includes(value, text) then Picked(from) else FirstOption(options, includes, value, from + 1)
  }

  /** The first option whose text contains the value gives the control its
      `value` and a change event; the comparison is `includes`, which
      `FillFormField` instantiates with `Includes`. */
  function DropdownPlan(c: Container, value: Value, includes: (string, string) -> bool): Plan {
    if c.dropdown == null then Nothing
    else
      match value
      case Many(_) => if |c.dropdownOptions| > 0 then Plan(Threw, None, []) else Nothing
      case Single(text) =>
        match FirstOption(c.dropdownOptions, includes, text, 0)
        case NoText => Plan(Threw, None, [])
        case NoMatch => Nothing
        case Picked(i) => Plan(Completed, Some(c.dropdownOptions[i].value), [Dispatched(ChangeEvent, c.dropdown)])
  }

  method FillDropdown(c: Container, value: Value, includes: (string, string) -> bool) returns (status: Status)
    modifies c, c.dropdown
    ensures var p := DropdownPlan(c, value, includes);
      status == p.status && c.log == old(c.log) + p.effects &&
      (c.dropdown != null ==> c.dropdown.value == if p.written.Some? then p.written.value else old(c.dropdown.value))
  {
    var select := c.dropdown;
    if select == null {
      return Completed;
    }
    var options := c.dropdownOptions;
    var i := 0;
    while i < |options|
      invariant 0 <= i <= |options|
      invariant value.Many? ==> i == 0
      invariant value.Single? ==> FirstOption(options, includes, value.text, 0) == FirstOption(options, includes, value.text, i)
      decreases |options| - i
    {
      if options[i].text.None? || value.Many? {
        return Threw;
      }
      if includes(value.text, options[i].text.value) {
        select.value := options[i].value;
        c.log := c.log + [Dispatched(ChangeEvent, select)];
        return Completed;
      }
      i := i + 1;
    }
    status := Completed;
  }

  // ----- the dispatcher -----

  /** The plan of `fillFormField` for a field of type `kind`. */
  function FillPlan(c: Container, kind: QuestionType, value: Value, hostParse: string -> Option<string>): Plan {
    match kind
    case Text => TextPlan(c, value)
    case Paragraph => TextPlan(c, value)
    case Date => DatePlan(c, value, Normalizer(hostParse))
    case Radio => RadioPlan(c, value, LabelIs)
    case Checkbox => CheckboxPlan(c, value, LabelIs)
    case Dropdown => DropdownPlan(c, value, Includes)
    case Unknown => Nothing
  }

  /** `fillFormField`: the branch for the field's type; an error thrown by a
      branch is rethrown. */
  method FillFormField(field: Field, value: Value, hostParse: string -> Option<string>) returns (status: Status)
    modifies Footprint(field.element, field.kind)
    ensures var c, target := field.element, Target(field.element, field.kind);
      var p := FillPlan(c, field.kind, value, hostParse);
      status == p.status && c.log == old(c.log) + p.effects &&
      (target != null ==> target.value == if p.written.Some? then p.written.value else old(target.value))
  {
    var c := field.element;
    match field.kind
    case Text => status := FillText(c, value);
    case Paragraph => status := FillText(c, value);
    case Date => status := FillDate(c, value, hostParse);
    case Radio => status := FillRadio(c, value, LabelIs);
    case Checkbox => status := FillCheckbox(c, value, LabelIs);
    case Dropdown => status := FillDropdown(c, value, Includes);
    case Unknown => status := Completed;
  }

  // ----- properties -----

  /** A radio question gets at most one click, on the first option whose
      label agrees with the value, and none exactly when no label within the
      option count agrees. */
  lemma RadioClicksFirstAgreeing(c: Container, text: string)
    ensures var p := RadioPlan(c, Single(text), LabelIs);
      p.status == Completed && p.written == None && |p.effects| <= 1 &&
      (p.effects == [] <==> forall j :: 0 <= j < c.radioCount && j < |c.radioLabels| ==> !LabelIs(text, c.radioLabels[j])) &&
      (p.effects != [] ==>
         var i := p.effects[0].index;
         p.effects[0].Clicked? && i < c.radioCount && i < |c.radioLabels| && LabelIs(text, c.radioLabels[i]) &&
         forall j :: 0 <= j < i ==> !LabelIs(text, c.radioLabels[j]))
  {
    var r := FirstIndex(c.radioCount, c.radioLabels, LabelIs, text, 0);
    if r.None? {
      assert RadioPlan(c, Single(text), LabelIs).effects == [];
    } else {
      assert RadioPlan(c, Single(text), LabelIs).effects == [Clicked(r.value)];
    }
  }

  /** The values are compared untrimmed: a value that starts or ends with
      white space agrees with no label, since trimmed labels do not. */
  lemma PaddedValueAgreesWithNoLabel(value: string, caption: string)
    requires value != [] && (IsSpace(value[0]) || IsSpace(value[|value| - 1]))
    ensures !LabelIs(value, caption)
  {
  }

  /** So such a value clicks no radio option. */
  lemma PaddedValueClicksNoRadio(c: Container, value: string)
    requires value != [] && (IsSpace(value[0]) || IsSpace(value[|value| - 1]))
    ensures RadioPlan(c, Single(value), LabelIs) == Nothing
  {
    forall caption: string
      ensures !LabelIs(value, caption)
    {
      PaddedValueAgreesWithNoLabel(value, caption);
    }
  }

  /** A checkbox option is clicked exactly when it is below the option
      count, has a label, and that label agrees with some value; the clicks
      go in increasing option order, each option at most once. */
  lemma {:induction false} ChosenSpec(n: nat, labels: seq<string>, same: (string, string) -> bool, values: seq<string>)
    ensures var ch := Chosen(n, labels, same, values);
      (forall i: nat :: i in ch <==> i < n && i < |labels| && AnyAgrees(same, values, labels[i])) &&
      (forall k, l :: 0 <= k < l < |ch| ==> ch[k] < ch[l]) &&
      (forall k :: 0 <= k < |ch| ==> ch[k] < n)
  {
    if n > 0 {
      ChosenSpec(n - 1, labels, same, values);
      var init := Chosen(n - 1, labels, same, values);
      var last: seq<nat> := if n - 1 < |labels| && AnyAgrees(same, values, labels[n - 1]) then [n - 1] else [];
      assert Chosen(n, labels, same, values) == init + last;
      forall i: nat
        ensures i in init + last <==> i < n && i < |labels| && AnyAgrees(same, values, labels[i])
      {
        assert i in init + last <==> i in init || i in last;
      }
    }
  }

  /** A single value is handled as a one-element list. */
  lemma CheckboxSingleIsList(c: Container, text: string, same: (string, string) -> bool)
    ensures CheckboxPlan(c, Single(text), same) == CheckboxPlan(c, Many([text]), same)
  {
  }

  /** The dropdown takes the first option whose text contains the value,
      not the best match: with options "Iceberg" and "Ice", the value "ice"
      selects "Iceberg". */
  lemma DropdownFirstNotBest(value: string, first: string, second: string)
    requires value == "ice" && first == "Iceberg" && second == "Ice"
    ensures FirstOption([OptionElement(Some(first), "iceberg"), OptionElement(Some(second), "ice")],
                        Includes, value, 0) == Picked(0)
  {
    TrimNoop(first);
    assert first[..|value|] == "Ice";
    IncludesAtStart(value, first);
  }

  /** A text whose trimmed form starts with the value, up to case,
      includes it. */
  lemma IncludesAtStart(value: string, text: string)
    requires |value| <= |Trim(text)| && Lower(Trim(text)[..|value|]) == Lower(value)
    ensures Includes(value, text)
  {
    LowerPrefix(Trim(text), |value|);
    PrefixContained(Lower(Trim(text)), Lower(value));
  }

  /** A text in which no character lower-cases to the value's `j`-th one
      does not include the value. */
  lemma MissingLetterNotIncluded(value: string, text: string, j: nat)
    requires j < |value|
    requires LowerChar(value[j]) !in Lower(text)
    ensures !Includes(value, text)
  {
    var i := |text| - |TrimStart(text)|;
    MissingInSlice(text, i, |Trim(text)|, LowerChar(value[j]));
    MissingNotContained(Lower(Trim(text)), Lower(value), j);
  }

  /** A character missing from a lower-cased text is missing from every
      lower-cased slice of it. */
  lemma MissingInSlice(s: string, i: nat, n: nat, c: char)
    requires i + n <= |s| && c !in Lower(s)
    ensures c !in Lower(s[i..i + n])
  {
    var t, l := Lower(s[i..i + n]), Lower(s);
    forall k | 0 <= k < |t| ensures t[k] != c {
      assert t[k] == l[i + k];
    }
  }

  /** A text lacking the needle's `j`-th character does not contain it. */
  lemma MissingNotContained(hay: string, needle: string, j: nat)
    requires j < |needle| && needle[j] !in hay
    ensures !Contains(hay, needle)
  {
    forall i | 0 <= i <= |hay|
      ensures !OccursAt(hay, needle, i)
    {
      if i + |needle| <= |hay| {
        assert hay[i..i + |needle|][j] == hay[i + j];
      }
    }
  }

  /** With options "Italy", "Ireland" and "Iceland", the value "ice"
      selects "Iceland", the first option whose text contains it. */
  lemma DropdownFirstContaining(value: string, first: string, second: string, third: string)
    requires value == "ice" && first == "Italy" && second == "Ireland" && third == "Iceland"
    ensures FirstOption([OptionElement(Some(first), "it"), OptionElement(Some(second), "ie"),
                         OptionElement(Some(third), "is")], Includes, value, 0) == Picked(2)
  {
    assert Lower(first) == "italy" && Lower(second) == "ireland";
    MissingLetterNotIncluded(value, first, 1);
    MissingLetterNotIncluded(value, second, 1);
    TrimNoop(third);
    assert third[..|value|] == "Ice";
    IncludesAtStart(value, third);
    FirstOptionAt([OptionElement(Some(first), "it"), OptionElement(Some(second), "ie"),
                   OptionElement(Some(third), "is")], Includes, value, 0, 2);
  }

  /** The option at `i` is picked when its text includes the value and
      every earlier option has a text that does not. */
  lemma {:induction false} FirstOptionAt(options: seq<OptionElement>, includes: (string, string) -> bool,
                                         value: string, from: nat, i: nat)
    requires from <= i < |options| && options[i].text.Some? && includes(value, options[i].text.value)
    requires forall j :: from <= j < i ==> options[j].text.Some? && !includes(value, options[j].text.value)
    ensures FirstOption(options, includes, value, from) == Picked(i)
    decreases i - from
  {
    if from < i {
      FirstOptionAt(options, includes, value, from + 1, i);
    }
  }

  /** Every text contains the empty value, so an empty value selects the
      first option when that option has a text, and throws when it has
      none. */
  lemma EmptyValuePicksFirstOption(options: seq<OptionElement>)
    requires options != []
    ensures FirstOption(options, Includes, "", 0) == if options[0].text.Some? then Picked(0) else NoText
  {
    if options[0].text.Some? {
      var t := Lower(Trim(options[0].text.value));
      assert Lower("") == "";
      assert OccursAt(t, "", 0);
    }
  }

  /** A date question receives an ISO date, unless the value is neither
      an Italian date nor ISO and the host's own parse accepted it; the
      input event precedes the change event. */
  lemma DateWritesIsoOrHostDate(c: Container, text: string, hostParse: string -> Option<string>)
    ensures var p := DatePlan(c, Single(text), Normalizer(hostParse));
      p.status == Completed &&
      (p.written.Some? ==>
         c.dateInput != null &&
         (IsIsoDate(p.written.value) || hostParse(text) == p.written) &&
         p.effects == [Dispatched(InputEvent, c.dateInput), Dispatched(ChangeEvent, c.dateInput)]) &&
      (p.written.None? ==> p.effects == [])
  {
  }

  /** Only the branch's target control is written, and an unknown type
      does nothing. */
  lemma WritesOnlyTarget(c: Container, kind: QuestionType, value: Value, hostParse: string -> Option<string>)
    ensures var p := FillPlan(c, kind, value, hostParse);
      (p.written.Some? ==> Target(c, kind) != null) && (kind == Unknown ==> p == Nothing)
  {
  }

  /** Clicks only happen for radio and checkbox questions, and events are
      only dispatched on the branch's target control. */
  lemma EffectsStayInBranch(c: Container, kind: QuestionType, value: Value, hostParse: string -> Option<string>)
    ensures var p := FillPlan(c, kind, value, hostParse);
      forall k :: 0 <= k < |p.effects| ==>
        (p.effects[k].Clicked? ==> kind == Radio || kind == Checkbox) &&
        (p.effects[k].Dispatched? ==> p.effects[k].target == Target(c, kind))
  {
    match kind
    case Radio => RadioOnlyClicks(c, value, LabelIs);
    case Checkbox => CheckboxOnlyClicks(c, value, LabelIs);
    case Date => DateEvents(c, value, Normalizer(hostParse));
    case _ =>
  }

  /** The radio plan only clicks. */
  lemma RadioOnlyClicks(c: Container, value: Value, same: (string, string) -> bool)
    ensures var p := RadioPlan(c, value, same); forall k :: 0 <= k < |p.effects| ==> p.effects[k].Clicked?
  {
  }

  /** The checkbox plan only clicks. */
  lemma CheckboxOnlyClicks(c: Container, value: Value, same: (string, string) -> bool)
    ensures var p := CheckboxPlan(c, value, same); forall k :: 0 <= k < |p.effects| ==> p.effects[k].Clicked?
  {
  }

  /** The date plan only dispatches on the date input. */
  lemma DateEvents(c: Container, value: Value, normalize: string -> Option<string>)
    ensures var p := DatePlan(c, value, normalize);
      forall k :: 0 <= k < |p.effects| ==> p.effects[k].Dispatched? && p.effects[k].target == c.dateInput
  {
  }
}
