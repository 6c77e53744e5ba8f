/**
 * The public page's registration form (Assets/Scripts/public-script.js, generateRegistrationForm):
 * one block of ten fields per participant, then one block of admin-defined questions. The form
 * is described by field descriptors (name, widget, required, constraint) instead of markup.
 */
module RegistrationForm {
  import opened Wrappers
  import opened Text
  import opened Store

  /** The input a field is rendered as. */
  datatype Widget = TextInput | EmailInput | PhoneInput | Select(options: seq<string>)

  /** A format constraint on a text input: the roll number's `pattern="[a-zA-Z0-9]{10}" maxlength="10"`. */
  datatype Constraint = Unconstrained | Alphanumeric(length: nat)

  datatype Field = Field(name: string, widget: Widget, required: bool, constraint: Constraint)

  /** A custom question as rendered: its label and, for a known question type, its input. */
  datatype Prompt = Prompt(labelText: string, input: Option<Field>)

  datatype Block =
    | ParticipantBlock(heading: string, fields: seq<Field>)
    | QuestionsBlock(prompts: seq<Prompt>)

  type Form = seq<Block>

  // ---------------------------------------------------------------------------------------------
  // Participant blocks
  // ---------------------------------------------------------------------------------------------

  /** How many participant blocks an event asks for: its team size for a team event, otherwise one. */
  function ParticipantCount(e: Event): nat {
    if e.participationType == "team" then e.teamSize else 1
  }

  /** `p${i}_${suffix}`. */
  function ParticipantFieldName(i: nat, suffix: string): string {
    "p" + NatToString(i) + "_" + suffix
  }

  const FieldSuffixes: seq<string> :=
    ["name", "college", "year", "branch", "section", "roll", "email", "phone", "ieee_member", "ieee_id"]

  const YearOptions: seq<string> := ["2", "3", "4"]
  const BranchOptions: seq<string> :=
    ["CIVIL", "CSB", "CSC", "CSD", "CSE", "CSM", "ECE", "EEE", "IT", "MECH", "OTHERS"]
  const SectionOptions: seq<string> := ["A", "B", "C", "D", "OTHERS"]
  const YesNoOptions: seq<string> := ["Yes", "No"]

  /** The ten fields of participant `i`, in the order the block renders them. */
  function ParticipantFields(i: nat): seq<Field> {
    [ Field(ParticipantFieldName(i, "name"), TextInput, true, Unconstrained),
      Field(ParticipantFieldName(i, "college"), TextInput, true, Unconstrained),
      Field(ParticipantFieldName(i, "year"), Select(YearOptions), true, Unconstrained),
      Field(ParticipantFieldName(i, "branch"), Select(BranchOptions), true, Unconstrained),
      Field(ParticipantFieldName(i, "section"), Select(SectionOptions), true, Unconstrained),
      Field(ParticipantFieldName(i, "roll"), TextInput, true, Alphanumeric(10)),
      Field(ParticipantFieldName(i, "email"), EmailInput, true, Unconstrained),
      Field(ParticipantFieldName(i, "phone"), PhoneInput, true, Unconstrained),
      Field(ParticipantFieldName(i, "ieee_member"), Select(YesNoOptions), true, Unconstrained),
      Field(ParticipantFieldName(i, "ieee_id"), TextInput, false, Unconstrained) ]
  }

  /** The heading of block `i` of `count`: numbered only when there is more than one participant. */
  function ParticipantHeading(i: nat, count: nat): string {
    if count > 1 then "Participant " + NatToString(i) + ":" else "Participant Details:"
  }

  /** Blocks 1 to `count`, in ascending order. */
  function ParticipantBlocks(count: nat): (blocks: seq<Block>)
    ensures |blocks| == count
  {
    seq(count, k requires 0 <= k < count => ParticipantBlock(ParticipantHeading(k + 1, count), ParticipantFields(k + 1)))
  }

  // ---------------------------------------------------------------------------------------------
  // Custom questions
  // ---------------------------------------------------------------------------------------------

  /** `custom_q_${label.replace(/\s+/g, '_')}`. */
  function CustomFieldName(labelText: string): string {
    "custom_q_" + ReplaceWhitespaceRuns(labelText, "_")
  }

  /** The options of a rating question: the numerals of 1 to 10, ascending. */
  function RatingScale(): (scale: seq<string>)
    ensures |scale| == 10 && forall j :: 0 <= j < 10 ==> scale[j] == NatToString(j + 1)
  {
    seq(10, j requires 0 <= j < 10 => NatToString(j + 1))
  }

  /** The input of a question: free text, Yes/No, a 1-10 rating, or none for any other type. */
  function QuestionInput(q: Question): Option<Field> {
    var name := CustomFieldName(q.labelText);
    if q.kind == "text" then Some(Field(name, TextInput, true, Unconstrained))
    else if q.kind == "yesno" then Some(Field(name, Select(YesNoOptions), true, Unconstrained))
    else if q.kind == "rating" then Some(Field(name, Select(RatingScale()), true, Unconstrained))
    else None
  }

  /** The questions block, present only when the event has questions, one prompt per question in stored order. */
  function QuestionsSection(qs: seq<Question>): seq<Block> {
    if qs == [] then []
    else [QuestionsBlock(seq(|qs|, k requires 0 <= k < |qs| => Prompt(qs[k].labelText, QuestionInput(qs[k]))))]
  }

  /** The form an event's page shows. */
  function RegistrationFormOf(e: Event): Form {
    ParticipantBlocks(ParticipantCount(e)) + QuestionsSection(e.customQuestions)
  }

  // ---------------------------------------------------------------------------------------------
  // The generator, as the page builds it
  // ---------------------------------------------------------------------------------------------

  /** The inner loop of a rating question: options 1 to 10. */
  method BuildRatingOptions() returns (options: seq<string>)
    ensures options == RatingScale()
  {
    options := [];
    for j := 1 to 11
      invariant |options| == j - 1
      invariant forall m :: 0 <= m < j - 1 ==> options[m] == NatToString(m + 1)
    {
      options := options + [NatToString(j)];
    }
  }

  /** `generateRegistrationForm(event)`: the participant loop, then the loop over the questions. */
  method GenerateRegistrationForm(e: Event) returns (form: Form)
    ensures form == RegistrationFormOf(e)
  {
    var count := if e.participationType == "team" then e.teamSize else 1;
    form := [];
    for i := 1 to count + 1
      invariant |form| == i - 1
      invariant forall k :: 0 <= k < i - 1 ==> form[k] == ParticipantBlocks(count)[k]
    {
      var heading := if count > 1 then "Participant " + NatToString(i) + ":" else "Participant Details:";
      form := form + [ParticipantBlock(heading, ParticipantFields(i))];
    }
    assert form == ParticipantBlocks(count);
    var qs := e.customQuestions;
    if |qs| > 0 {
      var prompts: seq<Prompt> := [];
      for k := 0 to |qs|
        invariant |prompts| == k
        invariant forall m :: 0 <= m < k ==> prompts[m] == Prompt(qs[m].labelText, QuestionInput(qs[m]))
      {
        var q := qs[k];
        var fieldName := "custom_q_" + ReplaceWhitespaceRuns(q.labelText, "_");
        var input: Option<Field>;
        if q.kind == "text" {
          input := Some(Field(fieldName, TextInput, true, Unconstrained));
        } else if q.kind == "yesno" {
          input := Some(Field(fieldName, Select(YesNoOptions), true, Unconstrained));
        } else if q.kind == "rating" {
          var options := BuildRatingOptions();
          input := Some(Field(fieldName, Select(options), true, Unconstrained));
        } else {
          input := None;
        }
        assert input == QuestionInput(q);
        prompts := prompts + [Prompt(q.labelText, input)];
      }
      assert prompts == seq(|qs|, k requires 0 <= k < |qs| => Prompt(qs[k].labelText, QuestionInput(qs[k])));
      form := form + [QuestionsBlock(prompts)];
    }
  }

  // ---------------------------------------------------------------------------------------------
  // What the form promises
  // ---------------------------------------------------------------------------------------------

  /**
   * The form has one block per participant, numbered 1 to N in ascending order, followed by the
   * questions block exactly when the event has questions. An individual event has one block
   * whatever its team size says.
   */
  lemma FormLayout(e: Event)
    ensures e.participationType != "team" ==> ParticipantCount(e) == 1
    ensures |RegistrationFormOf(e)| == ParticipantCount(e) + (if e.customQuestions == [] then 0 else 1)
    ensures forall k :: 0 <= k < ParticipantCount(e) ==>
      RegistrationFormOf(e)[k] == ParticipantBlock(ParticipantHeading(k + 1, ParticipantCount(e)), ParticipantFields(k + 1))
    ensures e.customQuestions != [] ==>
      RegistrationFormOf(e)[ParticipantCount(e)].QuestionsBlock?
      && |RegistrationFormOf(e)[ParticipantCount(e)].prompts| == |e.customQuestions|
      && forall k :: 0 <= k < |e.customQuestions| ==>
           RegistrationFormOf(e)[ParticipantCount(e)].prompts[k]
           == Prompt(e.customQuestions[k].labelText, QuestionInput(e.customQuestions[k]))
  {
  }

  /**
   * The input of a question by its type: free text, exactly Yes/No, exactly 1 to 10, each
   * required and named after the label; any other type gets a label and no input.
   */
  lemma QuestionInputByKind(q: Question)
    ensures q.kind == "text" ==> QuestionInput(q) == Some(Field(CustomFieldName(q.labelText), TextInput, true, Unconstrained))
    ensures q.kind == "yesno" ==> QuestionInput(q) == Some(Field(CustomFieldName(q.labelText), Select(["Yes", "No"]), true, Unconstrained))
    ensures q.kind == "rating" ==>
      QuestionInput(q) == Some(Field(CustomFieldName(q.labelText), Select(["1", "2", "3", "4", "5", "6", "7", "8", "9", "10"]), true, Unconstrained))
    ensures q.kind != "text" && q.kind != "yesno" && q.kind != "rating" ==> QuestionInput(q) == None
  {
    RatingScaleIsOneToTen();
  }

  /** Field `k` of participant `i` is named after the k-th suffix, and only the IEEE id is optional. */
  lemma ParticipantFieldsShape(i: nat)
    ensures |ParticipantFields(i)| == |FieldSuffixes| == 10
    ensures forall k :: 0 <= k < 10 ==> ParticipantFields(i)[k].name == ParticipantFieldName(i, FieldSuffixes[k])
    ensures forall k :: 0 <= k < 10 ==> (ParticipantFields(i)[k].required <==> FieldSuffixes[k] != "ieee_id")
  {
  }

  /** No two participant fields of a form share a name, across blocks or within one. */
  lemma ParticipantFieldNamesDistinct(i: nat, j: nat, s: string, t: string)
    requires ParticipantFieldName(i, s) == ParticipantFieldName(j, t)
    ensures i == j && s == t
  {
    var x, y := NatToString(i), NatToString(j);
    assert ParticipantFieldName(i, s)[1..] == x + "_" + s;
    assert ParticipantFieldName(j, t)[1..] == y + "_" + t;
    DigitsThenUnderscore(x, s, y, t);
    NatToStringInjective(i, j);
  }

  /** A question's field never takes the name of a participant field. */
  lemma CustomNamesAvoidParticipantNames(labelText: string, i: nat, suffix: string)
    ensures CustomFieldName(labelText) != ParticipantFieldName(i, suffix)
  {
    assert CustomFieldName(labelText)[0] == 'c';
    assert ParticipantFieldName(i, suffix)[0] == 'p';
  }

  /** A question's field name holds no whitespace and depends on nothing but the label. */
  lemma CustomFieldNameHasNoWhitespace(labelText: string)
    ensures NoWhitespace(CustomFieldName(labelText))
  {
    ReplaceRunsLeavesNoWhitespace(labelText, "_");
  }

  /**
   * A label made of two words separated by any whitespace run names its field after the words
   * joined by one underscore, so labels that differ only in the length or kind of that run
   * (`"T  Shirt"`, `"T\tShirt"`) collide on one field name.
   */
  lemma TwoWordFieldName(a: string, w: string, b: string)
    requires NoWhitespace(a) && NoWhitespace(b) && b != []
    requires w != [] && AllWhitespace(w)
    ensures CustomFieldName(a + w + b) == "custom_q_" + a + "_" + b
  {
    ReplaceRunsBetweenWords(a, w, b, "_");
    var prefix, sep := "custom_q_", "_";
    assert prefix + (a + sep + b) == prefix + a + sep + b;
  }

  lemma RatingScaleIsOneToTen()
    ensures RatingScale() == ["1", "2", "3", "4", "5", "6", "7", "8", "9", "10"]
  {
    assert NatToString(10) == NatToString(1) + [DigitChar(0)] == "10";
    assert forall j :: 0 <= j < 9 ==> RatingScale()[j] == [DigitChar(j + 1)];
  }

  // ---------------------------------------------------------------------------------------------
  // Constraint validation
  // ---------------------------------------------------------------------------------------------

  predicate IsAlphanumeric(c: char) {
    'a' <= c <= 'z' || 'A' <= c <= 'Z' || '0' <= c <= '9'
  }

  /**
   * Whether the browser's constraint validation lets value `v` through for field `f`: an empty
   * value only when the field is optional; otherwise one of the options of a select, and the
   * pattern and length of a constrained input. The format check of the email input is not modelled.
   */
  predicate Accepts(f: Field, v: string) {
    if v == "" then !f.required
    else
      && (f.widget.Select? ==> v in f.widget.options)
      && (f.constraint.Alphanumeric? ==>
            |v| == f.constraint.length && forall k :: 0 <= k < |v| ==> IsAlphanumeric(v[k]))
  }

  /** The roll number takes exactly ten characters from [a-zA-Z0-9]. */
  lemma RollNumberAccepts(i: nat, v: string)
    ensures Accepts(ParticipantFields(i)[5], v) <==> |v| == 10 && forall k :: 0 <= k < |v| ==> IsAlphanumeric(v[k])
  {
  }

  /** The year is 2, 3 or 4; IEEE membership is Yes or No; the IEEE id may be left empty. */
  lemma ParticipantChoices(i: nat, v: string)
    ensures Accepts(ParticipantFields(i)[2], v) <==> v == "2" || v == "3" || v == "4"
    ensures Accepts(ParticipantFields(i)[8], v) <==> v == "Yes" || v == "No"
    ensures Accepts(ParticipantFields(i)[9], v)
  {
  }
}
