/**
 * The page as the content script sees it. A question container's structure
 * is recorded as what each CSS selector the script uses finds inside it;
 * the parts the script writes to (control values and the clicks and events
 * it fires) are mutable.
 */
module Dom {

  import opened Optional

  /** Simple selectors whose presence inside a container the script tests
      with `querySelector(...)`. */
  datatype Marker =
    | InputDate        // input[type="date"]
    | RoleDate         // [role="date"]
    | PaperDateInput   // .quantumWizTextinputPaperinputInput[data-date="true"]
    | InputText        // input[type="text"]
    | RoleTextbox      // [role="textbox"]
    | Textarea         // textarea
    | InputRadio       // input[type="radio"]
    | RoleRadio        // [role="radio"]
    | PaperRadio       // .quantumWizTogglePaperradioEl
    | InputCheckbox    // input[type="checkbox"]
    | RoleCheckbox     // [role="checkbox"]
    | PaperCheckbox    // .quantumWizTogglePapercheckboxEl
    | SelectElement    // select
    | RoleListbox      // [role="listbox"]
    | AriaRequired     // [aria-required="true"]

  /** Document-level selectors for question containers, in the order tried. */
  datatype ContainerSelector =
    | QuestionBaseRoot       // .freebirdFormviewerComponentsQuestionBaseRoot
    | NumberedItemContainer  // .freebirdFormviewerViewNumberedItemContainer
    | ItemsItemItem          // .freebirdFormviewerViewItemsItemItem
    | ListItem               // div[role="listitem"]
    | ItemsItemItemHeader    // .freebirdFormviewerViewItemsItemItemHeader

  const ContainerSelectors: seq<ContainerSelector> :=
    [QuestionBaseRoot, NumberedItemContainer, ItemsItemItem, ListItem, ItemsItemItemHeader]

  /** Selectors for a question's title element, in the order tried. */
  datatype TitleSelector =
    | QuestionBaseTitle   // .freebirdFormviewerComponentsQuestionBaseTitle
    | ItemsItemItemTitle  // .freebirdFormviewerViewItemsItemItemTitle
    | RoleHeading         // [role="heading"]
    | ItemHeader          // .freebirdFormviewerViewItemsItemItemHeader

  const TitleSelectors: seq<TitleSelector> :=
    [QuestionBaseTitle, ItemsItemItemTitle, RoleHeading, ItemHeader]

  /** Selectors for the labels of radio and checkbox options, in the order tried. */
  datatype OptionSelector =
    | LabelElement            // label
    | RoleRadioOption         // [role="radio"]
    | RoleCheckboxOption      // [role="checkbox"]
    | ToggleLabeledContainer  // .docssharedWizToggleLabeledContainer
    | PaperRadioOption        // .quantumWizTogglePaperradioEl

  const OptionSelectors: seq<OptionSelector> :=
    [LabelElement, RoleRadioOption, RoleCheckboxOption, ToggleLabeledContainer, PaperRadioOption]

  /** A value the language model assigns to a field: a string, or for
      checkbox questions possibly an array of strings. */
  datatype Value = Single(text: string) | Many(items: seq<string>)

  /** One entry of a dropdown control's option list: its `text` property
      (None when the element has no such property, as for a plain
      `[role="option"]` element) and its `value`. */
  datatype OptionElement = OptionElement(text: Option<string>, value: string)

  datatype EventKind = InputEvent | ChangeEvent

  /** What the script does to a container besides assigning values: a click
      on the option control at `index` (of the radio or checkbox controls),
      or a bubbling event dispatched on a control. */
  datatype Effect = Clicked(index: nat) | Dispatched(event: EventKind, target: Control)

  /** An element with a mutable `value` (text input, textarea, date input,
      select or listbox). */
  class Control {
    var value: string

    constructor (initial: string)
      ensures value == initial
    {
      value := initial;
    }
  }

  /** One question container. */
  class Container {
    /** Which of the marker selectors match some descendant. */
    const markers: set<Marker>
    /** For each title selector that finds an element: that element's textContent. */
    const titleHits: map<TitleSelector, string>
    /** For each option selector: the textContent of every element it finds,
        in document order (a missing key finds nothing). */
    const optionHits: map<OptionSelector, seq<string>>
    /** The option texts of the first `select` element, if there is one. */
    const nativeSelect: Option<seq<string>>
    /** The first `input[type="text"], textarea`. */
    const textInput: Control?
    /** The first date-marked element. */
    const dateInput: Control?
    /** The first `select, [role="listbox"]`, and its options. */
    const dropdown: Control?
    const dropdownOptions: seq<OptionElement>
    /** How many `input[type="radio"], [role="radio"]` controls there are,
        and the textContent of each `label, [role="radio"] .exportLabel`. */
    const radioCount: nat
    const radioLabels: seq<string>
    /** The same for `input[type="checkbox"], [role="checkbox"]` and
        `label, [role="checkbox"] .exportLabel`. */
    const checkboxCount: nat
    const checkboxLabels: seq<string>
    /** Clicks and events, oldest first. */
    var log: seq<Effect>

    constructor (markers: set<Marker>, titleHits: map<TitleSelector, string>,
                 optionHits: map<OptionSelector, seq<string>>, nativeSelect: Option<seq<string>>,
                 textInput: Control?, dateInput: Control?,
                 dropdown: Control?, dropdownOptions: seq<OptionElement>,
                 radioCount: nat, radioLabels: seq<string>,
                 checkboxCount: nat, checkboxLabels: seq<string>)
      ensures this.markers == markers && this.titleHits == titleHits
      ensures this.optionHits == optionHits && this.nativeSelect == nativeSelect
      ensures this.textInput == textInput && this.dateInput == dateInput
      ensures this.dropdown == dropdown && this.dropdownOptions == dropdownOptions
      ensures this.radioCount == radioCount && this.radioLabels == radioLabels
      ensures this.checkboxCount == checkboxCount && this.checkboxLabels == checkboxLabels
      ensures log == []
    {
      this.markers, this.titleHits, this.optionHits, this.nativeSelect := markers, titleHits, optionHits, nativeSelect;
      this.textInput, this.dateInput := textInput, dateInput;
      this.dropdown, this.dropdownOptions := dropdown, dropdownOptions;
      this.radioCount, this.radioLabels := radioCount, radioLabels;
      this.checkboxCount, this.checkboxLabels := checkboxCount, checkboxLabels;
      log := [];
    }

    /** `querySelector(sel)` followed by `textContent`. */
    function TitleHit(sel: TitleSelector): Option<string> {
      if sel in titleHits then Some(titleHits[sel]) else None
    }

    /** `querySelectorAll(sel)` mapped to `textContent`. */
    function OptionHits(sel: OptionSelector): seq<string> {
      if sel in optionHits then optionHits[sel] else []
    }
  }

  /** The document: which containers each container selector finds, in
      document order (a missing key finds nothing). */
  datatype Document = Document(found: map<ContainerSelector, seq<Container>>) {
    function QueryAll(sel: ContainerSelector): seq<Container> {
      if sel in found then found[sel] else []
    }
  }
}
