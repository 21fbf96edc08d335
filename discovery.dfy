/**
 * Field discovery: find the question containers, and describe each one that
 * has a title element as a field record (title, type, required flag, option
 * texts and the container itself), in document order.
 */
module Discovery {

  import opened Optional
  import opened JsText
  import opened Cascade
  import opened Dom
  import opened Classifier
  import opened FilterMaps

  /** One discovered question. */
  datatype Field = Field(title: string, kind: QuestionType, required: bool, options: seq<string>,
                         element: Container)

  // ----- specification -----

  /** The containers found by the first container selector that finds any. */
  function Questions(doc: Document): seq<Container> {
    FirstNonEmpty(ContainerSelectors, doc.QueryAll)
  }

  /** The text of the container's title element, from the first title
      selector that finds one; None when no selector finds an element. */
  function TitleOf(c: Container): Option<string> {
    FirstSome(TitleSelectors, c.TitleHit)
  }

  /** `map(t => t.trim())`. */
  function TrimAll(texts: seq<string>): (r: seq<string>)
    ensures |r| == |texts|
    ensures forall k :: 0 <= k < |r| ==> r[k] == Trim(texts[k])
  {
    seq(|texts|, k requires 0 <= k < |texts| => Trim(texts[k]))
  }

  /** The option texts of a question of type `kind`: for radio and checkbox
      questions the trimmed texts of what the first option selector with any
      hit finds; for dropdowns the trimmed texts of the first `select`
      element's options; nothing otherwise. */
  function OptionsOf(c: Container, kind: QuestionType): seq<string> {
    if kind == Radio || kind == Checkbox then TrimAll(FirstNonEmpty(OptionSelectors, c.OptionHits))
    else if kind == Dropdown then
      match c.nativeSelect
      case None => []
      case Some(texts) => TrimAll(texts)
    else []
  }

  /** The record for one container, or None when it has no title element. */
  function Describe(c: Container): (r: Option<Field>)
    ensures r.Some? <==> TitleOf(c).Some?
  {
    match TitleOf(c)
    case None => None
    case Some(text) =>
      var kind := DetermineQuestionType(c.markers);
      Some(Field(Trim(text), kind, AriaRequired in c.markers, OptionsOf(c, kind), c))
  }

  /** The record of a container whose title element has text `text`. */
  lemma DescribeTitled(c: Container, text: string)
    requires TitleOf(c) == Some(text)
    ensures var kind := DetermineQuestionType(c.markers);
      Describe(c) == Some(Field(Trim(text), kind, AriaRequired in c.markers, OptionsOf(c, kind), c))
  {
  }

  /** The whole of `analyzeFormFields`. */
  function Discover(doc: Document): seq<Field> {
    FilterMap(Questions(doc), Describe)
  }

  // ----- the imperative search loops -----

  /** The loop over the container selectors, which stops at the first
      selector that finds something. */
  method FindQuestions(doc: Document) returns (questions: seq<Container>)
    ensures questions == Questions(doc)
  {
    questions := [];
    var i := 0;
    while i < |ContainerSelectors|
      invariant 0 <= i <= |ContainerSelectors|
      invariant forall j :: 0 <= j < i ==> doc.QueryAll(ContainerSelectors[j]) == []
      invariant questions == []
    {
      questions := doc.QueryAll(ContainerSelectors[i]);
      if |questions| > 0 {
        FirstNonEmptyAt(ContainerSelectors, doc.QueryAll, i);
        return;
      }
      i := i + 1;
    }
  }

  /** The loop over the title selectors, which stops at the first selector
      that finds an element. */
  method FindTitle(c: Container) returns (title: Option<string>)
    ensures title == TitleOf(c)
  {
    title := None;
    var i := 0;
    while i < |TitleSelectors|
      invariant 0 <= i <= |TitleSelectors|
      invariant forall j :: 0 <= j < i ==> c.TitleHit(TitleSelectors[j]).None?
      invariant title == None
    {
      title := c.TitleHit(TitleSelectors[i]);
      if title.Some? {
        FirstSomeAt(TitleSelectors, c.TitleHit, i);
        return;
      }
      i := i + 1;
    }
  }

  /** The option texts, with the loop over the option selectors. */
  method FindOptions(c: Container, kind: QuestionType) returns (options: seq<string>)
    ensures options == OptionsOf(c, kind)
  {
    options := [];
    if kind == Radio || kind == Checkbox {
      var i := 0;
      while i < |OptionSelectors|
        invariant 0 <= i <= |OptionSelectors|
        invariant forall j :: 0 <= j < i ==> c.OptionHits(OptionSelectors[j]) == []
        invariant options == []
      {
        var elements := c.OptionHits(OptionSelectors[i]);
        if |elements| > 0 {
          options := TrimAll(elements);
          FirstNonEmptyAt(OptionSelectors, c.OptionHits, i);
          return;
        }
        i := i + 1;
      }
    } else if kind == Dropdown {
      if c.nativeSelect.Some? {
        options := TrimAll(c.nativeSelect.value);
      }
    }
  }

  /** The body of the `forEach` callback for one container: None where the
      callback returns early for want of a title element. */
  method AnalyzeQuestion(question: Container) returns (field: Option<Field>)
    ensures field == Describe(question)
  {
    var titleElement := FindTitle(question);
    if titleElement.None? {
      return None;
    }
    var title := Trim(titleElement.value);
    var kind := DetermineQuestionType(question.markers);
    var required := AriaRequired in question.markers;
    var options := FindOptions(question, kind);
    DescribeTitled(question, titleElement.value);
    field := Some(Field(title, kind, required, options, question));
  }

  /** The `forEach` over the containers: skip those without a title
      element and append a record for every other one. */
  method AnalyzeAll(questions: seq<Container>) returns (fields: seq<Field>)
    ensures fields == FilterMap(questions, Describe)
  {
    fields := [];
    for i := 0 to |questions|
      invariant fields == FilterMap(questions[..i], Describe)
    {
      var field := AnalyzeQuestion(questions[i]);
      FilterMapStep(questions, i, Describe, fields, field);
      if field.Some? {
        fields := fields + [field.value];
      }
    }
    assert questions[..|questions|] == questions;
  }

  /** `analyzeFormFields`. */
  method AnalyzeFormFields(doc: Document) returns (fields: seq<Field>)
    ensures fields == Discover(doc)
  {
    var questions := FindQuestions(doc);
    fields := AnalyzeAll(questions);
  }

  // ----- properties -----

  /** The records are the descriptions of the containers that have a title
      element, in container order: the k-th record describes the k-th
      titled container, and every titled container has its record. */
  lemma DiscoveryOutput(doc: Document)
    ensures var cs, r, o := Questions(doc), Discover(doc), Kept(Questions(doc), Describe);
      |r| == |o| &&
      (forall k :: 0 <= k < |o| ==>
         TitleOf(cs[o[k]]).Some? && Describe(cs[o[k]]) == Some(r[k]) && r[k].element == cs[o[k]]) &&
      (forall k, l :: 0 <= k < l < |o| ==> o[k] < o[l]) &&
      (forall j :: 0 <= j < |cs| && TitleOf(cs[j]).Some? ==> j in o)
  {
    var cs := Questions(doc);
    FilterMapSpec(cs, Describe);
    forall k | 0 <= k < |Kept(cs, Describe)|
      ensures Discover(doc)[k].element == cs[Kept(cs, Describe)[k]]
    {
      DescribeFacts(cs[Kept(cs, Describe)[k]]);
    }
  }

  /** One record per container exactly when every container has a title
      element. */
  lemma DiscoveryKeepsAll(doc: Document)
    ensures |Discover(doc)| == |Questions(doc)| <==>
      forall j :: 0 <= j < |Questions(doc)| ==> TitleOf(Questions(doc)[j]).Some?
  {
    FilterMapKeepsAll(Questions(doc), Describe);
  }

  /** What a record says about its container: the title is the trimmed
      text of the first title element, the type comes from the classifier,
      `required` holds exactly when some descendant is marked
      aria-required, and options are only collected for choice questions. */
  lemma DescribeFacts(c: Container)
    ensures Describe(c).Some? ==>
      var f := Describe(c).value;
      f.element == c &&
      f.title == Trim(TitleOf(c).value) &&
      f.kind == DetermineQuestionType(c.markers) &&
      (f.required <==> AriaRequired in c.markers) &&
      (f.kind !in {Radio, Checkbox, Dropdown} ==> f.options == [])
  {
  }

  /** A title element whose text is only white space still gives a record,
      with an empty title: only a missing title element skips a container. */
  lemma EmptyTitleKept(c: Container, text: string)
    requires TitleOf(c) == Some(text)
    requires forall k :: 0 <= k < |text| ==> IsSpace(text[k])
    ensures Describe(c).Some? && Describe(c).value.title == []
  {
  }

  /** A container of no recognised type is still described, as an unknown
      question without options. */
  lemma UnknownStillEmitted(c: Container)
    requires TitleOf(c).Some?
    requires forall t :: !Present(c.markers, t)
    ensures Describe(c).Some? && Describe(c).value.kind == Unknown && Describe(c).value.options == []
  {
  }

  /** Options of radio and checkbox questions are the trimmed texts found by
      the first option selector with any hit: none of them starts or ends
      with white space, and there is one per element found. */
  lemma ChoiceOptionsTrimmed(c: Container, kind: QuestionType, i: nat)
    requires kind == Radio || kind == Checkbox
    requires i < |OptionSelectors| && c.OptionHits(OptionSelectors[i]) != []
    requires forall j :: 0 <= j < i ==> c.OptionHits(OptionSelectors[j]) == []
    ensures |OptionsOf(c, kind)| == |c.OptionHits(OptionSelectors[i])|
    ensures forall k :: 0 <= k < |OptionsOf(c, kind)| ==>
      OptionsOf(c, kind)[k] == Trim(c.OptionHits(OptionSelectors[i])[k])
  {
    FirstNonEmptyAt(OptionSelectors, c.OptionHits, i);
  }

  /** A dropdown built on `[role="listbox"]` without a `select` element has
      no options. */
  lemma ListboxWithoutSelectHasNoOptions(c: Container)
    requires c.nativeSelect.None?
    ensures OptionsOf(c, Dropdown) == []
  {
  }
}
