/**
 * Question-type classification: the first marker family present in the
 * container decides the type.
 */
module Classifier {

  import opened Dom

  datatype QuestionType = Date | Text | Paragraph | Radio | Checkbox | Dropdown | Unknown

  /** Position of a type in the priority order; Unknown comes last. */
  function Rank(t: QuestionType): nat {
    match t
    case Date => 0
    case Text => 1
    case Paragraph => 2
    case Radio => 3
    case Checkbox => 4
    case Dropdown => 5
    case Unknown => 6
  }

  /** Some marker of type `t`'s family is in the container. */
  predicate Present(markers: set<Marker>, t: QuestionType) {
    match t
    case Date => InputDate in markers || RoleDate in markers || PaperDateInput in markers
    case Text => InputText in markers || RoleTextbox in markers
    case Paragraph => Textarea in markers
    case Radio => InputRadio in markers || RoleRadio in markers || PaperRadio in markers
    case Checkbox => InputCheckbox in markers || RoleCheckbox in markers || PaperCheckbox in markers
    case Dropdown => SelectElement in markers || RoleListbox in markers
    case Unknown => false
  }

  /** `determineQuestionType`: the result's family is present (unless the
      result is Unknown) and no family of higher priority is; Unknown exactly
      when no family at all is present. */
  function DetermineQuestionType(markers: set<Marker>): (r: QuestionType)
    ensures r != Unknown ==> Present(markers, r)
    ensures forall u :: Rank(u) < Rank(r) ==> !Present(markers, u)
    ensures r == Unknown ==> forall u :: !Present(markers, u)
  {
    if InputDate in markers || RoleDate in markers || PaperDateInput in markers then Date
    else if InputText in markers || RoleTextbox in markers then Text
    else if Textarea in markers then Paragraph
    else if InputRadio in markers || RoleRadio in markers || PaperRadio in markers then Radio
    else if InputCheckbox in markers || RoleCheckbox in markers || PaperCheckbox in markers then Checkbox
    else if SelectElement in markers || RoleListbox in markers then Dropdown
    else Unknown
  }

  /** The priority order as data. */
  const Priority: seq<QuestionType> := [Date, Text, Paragraph, Radio, Checkbox, Dropdown]

  /** Reference definition: walk the priority list and return the first type
      whose family is present. */
  function FirstPresent(order: seq<QuestionType>, markers: set<Marker>): QuestionType {
    if order == [] then Unknown
    else if Present(markers, order[0]) then order[0]
    else FirstPresent(order[1..], markers)
  }

  /** The if-chain is the first-match walk over the priority list. */
  lemma ClassifierFollowsPriority(markers: set<Marker>)
    ensures DetermineQuestionType(markers) == FirstPresent(Priority, markers)
  {
    var order := Priority;
    assert order[1..] == [Text, Paragraph, Radio, Checkbox, Dropdown];
    assert order[2..] == [Paragraph, Radio, Checkbox, Dropdown];
    assert order[3..] == [Radio, Checkbox, Dropdown];
    assert order[4..] == [Checkbox, Dropdown];
    assert order[5..] == [Dropdown];
    assert order[6..] == [];
    assert FirstPresent(order[5..], markers) == if Present(markers, Dropdown) then Dropdown else Unknown;
    assert FirstPresent(order[4..], markers) ==
      if Present(markers, Checkbox) then Checkbox else FirstPresent(order[5..], markers);
    assert FirstPresent(order[3..], markers) ==
      if Present(markers, Radio) then Radio else FirstPresent(order[4..], markers);
    assert FirstPresent(order[2..], markers) ==
      if Present(markers, Paragraph) then Paragraph else FirstPresent(order[3..], markers);
    assert FirstPresent(order[1..], markers) ==
      if Present(markers, Text) then Text else FirstPresent(order[2..], markers);
    assert FirstPresent(order, markers) ==
      if Present(markers, Date) then Date else FirstPresent(order[1..], markers);
  }

  /** The classification as an if-and-only-if: a container is of type `t`
      exactly when `t`'s family is present and no earlier family is. */
  lemma ClassifierCharacterization(markers: set<Marker>, t: QuestionType)
    requires t != Unknown
    ensures DetermineQuestionType(markers) == t <==>
      Present(markers, t) && forall u :: Rank(u) < Rank(t) ==> !Present(markers, u)
  {

  }

  /** A date marker wins over every other marker, e.g. a text input that also
      carries the date marker class. */
  lemma DateFirst(markers: set<Marker>)
    requires Present(markers, Date)
    ensures DetermineQuestionType(markers) == Date
  {
  }

  /** A container holding both a text input and a textarea is a text question. */
  lemma TextBeforeParagraph(markers: set<Marker>)
    requires InputText in markers && Textarea in markers && !Present(markers, Date)
    ensures DetermineQuestionType(markers) == Text
  {
  }
}
