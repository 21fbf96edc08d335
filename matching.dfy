/**
 * Instruction matching: the request sent to the language model (a summary
 * of the discovered fields and the user's instructions), and the binding
 * of the model's answer, a list of (field title, value) items, to the
 * discovered fields by title, ignoring case and surrounding white space.
 */
module Matching {

  import opened Optional
  import opened JsText
  import opened Dom
  import opened Classifier
  import opened Discovery
  import opened FilterMaps
  import opened Retry

  // ----- the request -----

  /** What the request says about one field: everything but the element. */
  datatype FieldSummary = FieldSummary(title: string, kind: QuestionType, required: bool, options: seq<string>)

  datatype Message = Message(role: string, content: string)

  /** The body of the chat-completion request. */
  datatype Request = Request(model: string, messages: seq<Message>)

  const ModelName: string := "gpt-4"

  const SystemText: string :=
    "Sei un assistente che aiuta a compilare moduli. Il tuo compito è analizzare le istruzioni dell'utente e abbinarle ai campi del modulo disponibili."

  const FieldsIntro: string := "Dati i seguenti campi del modulo:\n"
  const InstructionsIntro: string := "\n\nE le seguenti istruzioni:\n"
  const AnswerFormat: string :=
    "\n\nFornisci un JSON array di oggetti con 'fieldTitle' e 'value' per ogni campo che può essere compilato in base alle istruzioni. Per i campi checkbox, 'value' può essere un array di valori. Rispondi SOLO con il JSON, senza altri commenti."

  function Summarize(f: Field): FieldSummary {
    FieldSummary(f.title, f.kind, f.required, f.options)
  }

  /** The record a summary and an element describe. */
  function Restore(s: FieldSummary, element: Container): Field {
    Field(s.title, s.kind, s.required, s.options, element)
  }

  /** The `fieldsJson` array, before it is rendered. */
  function Summaries(fields: seq<Field>): (r: seq<FieldSummary>)
    ensures |r| == |fields|
  {
    seq(|fields|, k requires 0 <= k < |fields| => Summarize(fields[k]))
  }

  /** The user message: the rendered field summaries (`render` stands for
      `JSON.stringify(fieldsJson, null, 2)`), then the instructions, then the
      requested answer format. */
  function UserContent(instructions: string, fields: seq<Field>, render: seq<FieldSummary> -> string): string {
    FieldsIntro + render(Summaries(fields)) + InstructionsIntro + instructions + AnswerFormat
  }

  /** `createAIPrompt`. */
  function CreateAIPrompt(instructions: string, fields: seq<Field>, render: seq<FieldSummary> -> string): (r: Request)
    ensures r.model == ModelName && |r.messages| == 2
    ensures r.messages[0] == Message("system", SystemText)
    ensures r.messages[1].role == "user"
  {
    Request(ModelName, [Message("system", SystemText), Message("user", UserContent(instructions, fields, render))])
  }

  // ----- binding the answer -----

  /** One item of the model's answer. */
  datatype ModelMatch = ModelMatch(fieldTitle: string, value: Value)

  /** A value bound to a discovered field. */
  datatype Assignment = Assignment(field: Field, value: Value)

  /** The `find` predicate: both titles are non-empty and they are equal
      once trimmed and lower-cased. */
  predicate TitlesAgree(title: string, fieldTitle: string) {
    title != [] && fieldTitle != [] && Lower(Trim(title)) == Lower(Trim(fieldTitle))
  }

  /** The `find` callback for an item titled `fieldTitle`. */
  function Agrees(fieldTitle: string): Field -> bool {
    (f: Field) => TitlesAgree(f.title, fieldTitle)
  }

  /** `fields.find(...)`: the first field whose title agrees. */
  function FindField(fields: seq<Field>, fieldTitle: string): Option<Field> {
    Find(fields, Agrees(fieldTitle))
  }

  /** The `map` callback followed by the `filter` test, for the given fields. */
  function Resolver(fields: seq<Field>): ModelMatch -> Option<Assignment> {
    (m: ModelMatch) => match FindField(fields, m.fieldTitle)
         case None => None
         case Some(f) => Some(Assignment(f, m.value))
  }

  /** The items of the answer that name a field, bound to that field. */
  function ResolveMatches(matches: seq<ModelMatch>, fields: seq<Field>): seq<Assignment> {
    FilterMap(matches, Resolver(fields))
  }

  /** `matchInstructionsToFields`: build the request, ask the model with the
      default of three retries, and bind the items of the answer; a failure
      of the request is rethrown unchanged. */
  method MatchInstructionsToFields(instructions: string, fields: seq<Field>,
                                   render: seq<FieldSummary> -> string,
                                   network: (Request, nat) -> Outcome,
                                   parse: string -> Option<seq<ModelMatch>>)
    returns (r: Result<seq<Assignment>>, delays: seq<nat>)
    ensures var response := Responses(Attempts(CreateAIPrompt(instructions, fields, render), network, parse), 0, 3);
      delays == response.1 &&
      match response.0
      case Err(message) => r == Err(message)
      case Ok(matches) => r == Ok(ResolveMatches(matches, fields))
  {
    var prompt := CreateAIPrompt(instructions, fields, render);
    var reply;
    reply, delays := GetAIResponse(prompt, network, parse, 3);
    match reply
    case Err(message) =>
      r := Err(message);
    case Ok(matches) =>
      r := Ok(ResolveMatches(matches, fields));
  }

  // ----- properties -----

  /** The request carries the instructions verbatim, and the summaries as
      rendered. */
  lemma PromptQuotesInput(instructions: string, fields: seq<Field>, render: seq<FieldSummary> -> string)
    ensures var content := CreateAIPrompt(instructions, fields, render).messages[1].content;
      Contains(content, instructions) && Contains(content, render(Summaries(fields)))
  {
    ContainsParts(FieldsIntro, render(Summaries(fields)), InstructionsIntro, instructions, AnswerFormat);
  }

  /** Each summary describes its field: the field is the summary together
      with its element. */
  lemma SummariesRestore(fields: seq<Field>)
    ensures forall k :: 0 <= k < |fields| ==> Restore(Summaries(fields)[k], fields[k].element) == fields[k]
  {
  }

  /** The request does not depend on the elements of the fields: lists of
      fields that differ only in their elements give the same request. */
  lemma PromptIgnoresElements(instructions: string, fields: seq<Field>, others: seq<Field>,
                              render: seq<FieldSummary> -> string)
    requires |fields| == |others|
    requires forall k :: 0 <= k < |fields| ==> Summarize(fields[k]) == Summarize(others[k])
    ensures CreateAIPrompt(instructions, fields, render) == CreateAIPrompt(instructions, others, render)
  {
    assert Summaries(fields) == Summaries(others);
  }

  /** The field found for an item is the first whose title agrees with
      the item's, and there is none exactly when no title agrees. */
  lemma FindFieldSpec(fields: seq<Field>, fieldTitle: string)
    ensures var r := FindField(fields, fieldTitle);
      (r.None? <==> forall j :: 0 <= j < |fields| ==> !TitlesAgree(fields[j].title, fieldTitle)) &&
      (r.Some? ==>
         exists i :: 0 <= i < |fields| && fields[i] == r.value && TitlesAgree(fields[i].title, fieldTitle) &&
                     forall j :: 0 <= j < i ==> !TitlesAgree(fields[j].title, fieldTitle))
  {
  }

  /** `find` returns the field at `i` when its title agrees and no earlier
      one does. */
  lemma FindFieldAt(fields: seq<Field>, fieldTitle: string, i: nat)
    requires i < |fields| && TitlesAgree(fields[i].title, fieldTitle)
    requires forall j :: 0 <= j < i ==> !TitlesAgree(fields[j].title, fieldTitle)
    ensures FindField(fields, fieldTitle) == Some(fields[i])
  {
    FindAt(fields, Agrees(fieldTitle), i);
  }

  /** A field with an empty title is never chosen, and neither is any field
      for an item with an empty title. */
  lemma EmptyTitlesNeverAgree(fields: seq<Field>, fieldTitle: string)
    ensures fieldTitle == [] ==> FindField(fields, fieldTitle) == None
    ensures FindField(fields, fieldTitle).Some? ==> FindField(fields, fieldTitle).value.title != []
  {
    FindFieldSpec(fields, fieldTitle);
  }

  /** Title agreement ignores case and surrounding white space: an item
      naming a field by its lower-cased title finds it. */
  lemma LowerCaseTitleAgrees(title: string)
    requires title != []
    ensures TitlesAgree(title, Lower(title))
  {
    var t := Trim(title);
    var u := Trim(Lower(title));
    var i := |title| - |TrimStart(title)|;
    LowerTrimCommute(title);
    LowerIdempotent(t);
  }

  /** Trimming commutes with lower-casing, which keeps white space. */
  lemma LowerTrimCommute(s: string)
    ensures Trim(Lower(s)) == Lower(Trim(s))
  {
    TrimStartLower(s);
    TrimEndLower(TrimStart(s));
  }

  lemma {:induction false} TrimStartLower(s: string)
    ensures TrimStart(Lower(s)) == Lower(TrimStart(s))
    decreases |s|
  {
    if s != [] {
      assert Lower(s)[1..] == Lower(s[1..]);
      if IsSpace(s[0]) {
        TrimStartLower(s[1..]);
      }
    }
  }

  lemma {:induction false} TrimEndLower(s: string)
    ensures TrimEnd(Lower(s)) == Lower(TrimEnd(s))
    decreases |s|
  {
    if s != [] {
      assert Lower(s)[..|s| - 1] == Lower(s[..|s| - 1]);
      if IsSpace(s[|s| - 1]) {
        TrimEndLower(s[..|s| - 1]);
      }
    }
  }

  /** The bound items are the answer's items that name a field, in answer
      order: the k-th binding comes from the k-th such item, carries its
      value unchanged, and is bound to the first field whose title agrees;
      items naming no field are dropped, every other item is kept. */
  lemma ResolveMatchesSpec(matches: seq<ModelMatch>, fields: seq<Field>)
    ensures var r, o := ResolveMatches(matches, fields), Kept(matches, Resolver(fields));
      |r| == |o| &&
      (forall k :: 0 <= k < |o| ==>
         r[k].value == matches[o[k]].value &&
         FindField(fields, matches[o[k]].fieldTitle) == Some(r[k].field)) &&
      (forall k, l :: 0 <= k < l < |o| ==> o[k] < o[l]) &&
      (forall j :: 0 <= j < |matches| && FindField(fields, matches[j].fieldTitle).Some? ==> j in o)
  {
    var f := Resolver(fields);
    FilterMapSpec(matches, f);
    var r, o := ResolveMatches(matches, fields), Kept(matches, f);
    forall k | 0 <= k < |o|
      ensures r[k].value == matches[o[k]].value && FindField(fields, matches[o[k]].fieldTitle) == Some(r[k].field)
    {
      assert f(matches[o[k]]) == Some(r[k]);
    }
    forall j | 0 <= j < |matches| && FindField(fields, matches[j].fieldTitle).Some?
      ensures j in o
    {
      assert f(matches[j]).Some?;
    }
  }

  /** Every binding is to one of the given fields. */
  lemma BindingsAreFields(matches: seq<ModelMatch>, fields: seq<Field>)
    ensures forall a :: a in ResolveMatches(matches, fields) ==> a.field in fields
  {
    ResolveMatchesSpec(matches, fields);
    var r, o := ResolveMatches(matches, fields), Kept(matches, Resolver(fields));
    forall a | a in r
      ensures a.field in fields
    {
      var k :| 0 <= k < |r| && r[k] == a;
      FindFieldSpec(fields, matches[o[k]].fieldTitle);
    }
  }
}
