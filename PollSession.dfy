/**
  The state of one poll card (Poll.tsx): the hooks of the component become
  the fields of `Session`, and its handlers `generatePoll`,
  `handleSelectOption`, `handleSubmitAnswer` and `savePoll` its methods.
  The network calls are not made here: what each endpoint answered is a
  parameter, and what would be sent comes back as a result.
*/
module PollSession {
  import opened Wrappers
  import opened ReplyParser

  /** The religion buttons of the card, in order. */
  const Religions: seq<string> := ["🙏 Hinduism", "☪️ Islam", "✝️ Christianity", "🪯 Sikhism", "☸️ Buddhism", "🕉️ Jainism", "🌍 Other"]

  const ErrorQuestion: string := "Something went wrong. Please try again."
  const SelectFirstAlert: string := "Please select an option to submit."
  const SubmitFailedAlert: string := "Failed to submit your answer. Try again."

  datatype PollOption = PollOption(text: string, selected: bool)

  datatype NewsItem = NewsItem(title: string, description: string)

  /** What `generatePoll` gets from `/api/chat`. */
  datatype ChatOutcome =
    | ChatFailed                          // `fetch` or `res.json()` threw
    | ChatReply(message: Option<string>)  // the `message` field of the reply, if it is a string
    | ChatNonText                         // a truthy `message` that is not a string, so `match` throws

  /** Whether the `fetch` to `/api/savePollAnswer` threw. */
  datatype FetchOutcome = Delivered | Threw

  /** What the `/components/save-poll` endpoint did; `savePoll` only logs it. */
  datatype SaveOutcome = Saved | Rejected | SaveThrew

  /** The console line `savePoll` writes. */
  datatype LogLine = PollSavedLog | SaveFailedLog | SaveErrorLog

  /** The body sent to `/api/savePollAnswer`. */
  datatype AnswerRecord = AnswerRecord(headline: string, question: Option<string>, selectedOption: string, religion: string)

  /** The body sent to `/components/save-poll`. */
  datatype PollRecord = PollRecord(
    headline: string, description: string, religion: string,
    pollQuestion: string, options: seq<string>, userChoice: string)

  function Texts(opts: seq<PollOption>): (texts: seq<string>)
    ensures |texts| == |opts|
  {
    seq(|opts|, i requires 0 <= i < |opts| => opts[i].text)
  }

  predicate AtMostOneSelected(opts: seq<PollOption>) {
    forall i, j :: 0 <= i < |opts| && 0 <= j < |opts| && opts[i].selected && opts[j].selected ==> i == j
  }

  /** `randomizedOptions.map(opt => ({ text: opt, selected: false }))`. */
  function DisplayOptions(options: seq<string>): (shown: seq<PollOption>)
    ensures Texts(shown) == Decorate(options)
    ensures forall i :: 0 <= i < |shown| ==> !shown[i].selected
  {
    var texts := Decorate(options);
    seq(|texts|, i requires 0 <= i < |texts| => PollOption(texts[i], false))
  }

  /** `prev.map((opt, i) => ({ ...opt, selected: i === index }))`. */
  function SelectOnly(opts: seq<PollOption>, index: nat): (r: seq<PollOption>)
    ensures Texts(r) == Texts(opts)
    ensures forall i :: 0 <= i < |r| ==> (r[i].selected <==> i == index)
  {
    seq(|opts|, i requires 0 <= i < |opts| => opts[i].(selected := i == index))
  }

  /** Selection is single-choice and the last one wins: selecting `i` and then `j` is the same as selecting `j`. */
  lemma SelectTwice(opts: seq<PollOption>, i: nat, j: nat)
    ensures SelectOnly(SelectOnly(opts, i), j) == SelectOnly(opts, j)
  {
    var a, b := SelectOnly(SelectOnly(opts, i), j), SelectOnly(opts, j);
    assert |a| == |Texts(a)| == |Texts(b)| == |b|;
    forall k | 0 <= k < |a|
      ensures a[k] == b[k]
    {
      assert a[k].text == Texts(a)[k] == Texts(b)[k] == b[k].text;
    }
  }

  /** The position `pollOptions.find(opt => opt.selected)` finds, searching from `from`. */
  function FirstSelectedFrom(opts: seq<PollOption>, from: nat): (r: Option<nat>)
    requires from <= |opts|
    ensures r.Some? ==> from <= r.value < |opts| && opts[r.value].selected
    ensures r.Some? ==> forall k :: from <= k < r.value ==> !opts[k].selected
    ensures r.None? ==> forall k :: from <= k < |opts| ==> !opts[k].selected
    decreases |opts| - from
  {
    if from == |opts| then None
    else if opts[from].selected then Some(from)
    else FirstSelectedFrom(opts, from + 1)
  }

  /** `pollOptions.find(opt => opt.selected)?.text`. */
  function SelectedText(opts: seq<PollOption>): (r: Option<string>)
    ensures r.None? <==> forall k :: 0 <= k < |opts| ==> !opts[k].selected
    ensures r.Some? ==> exists i ::
      && 0 <= i < |opts| && opts[i].selected && opts[i].text == r.value
      && forall k :: 0 <= k < i ==> !opts[k].selected
  {
    match FirstSelectedFrom(opts, 0)
    case None => None
    case Some(i) => Some(opts[i].text)
  }

  /** After `handleSelectOption(index)`, `find` reports exactly that option. */
  lemma SelectedAfterSelect(opts: seq<PollOption>, index: nat)
    requires index < |opts|
    ensures SelectedText(SelectOnly(opts, index)) == Some(opts[index].text)
  {
    var r := SelectOnly(opts, index);
    assert Texts(r)[index] == Texts(opts)[index];
    var found := FirstSelectedFrom(r, 0);
    assert found == Some(index);
  }

  /** The `religion` field of the answer record: `selectedReligion || "General"`. */
  function CategoryOrGeneral(religion: string): (category: string)
    ensures category != ""
    ensures religion != "" ==> category == religion
    ensures religion == "" ==> category == "General"
  {
    if religion == "" then "General" else religion
  }

  /** The log line `savePoll` writes for each outcome of its request. */
  function SaveLog(outcome: SaveOutcome): (log: LogLine)
    ensures log == PollSavedLog <==> outcome.Saved?
    ensures log == SaveFailedLog <==> outcome.Rejected?
    ensures log == SaveErrorLog <==> outcome.SaveThrew?
  {
    match outcome
    case Saved => PollSavedLog
    case Rejected => SaveFailedLog
    case SaveThrew => SaveErrorLog
  }

  class Session {
    // props
    const headline: string
    const details: string

    // state hooks
    var selectedNews: NewsItem
    var selectedReligion: string
    var generatedQuestion: string
    var generatedOptions: seq<string>
    var pollQuestion: Option<string>
    var pollOptions: seq<PollOption>
    var loading: bool
    var submitted: bool
    var chosenOption: string

    /**
      What every handler keeps: at most one option is selected and its text
      is `chosenOption`; shown options are the decorated generated options;
      nothing is shown while a generation is in flight.
    */
    ghost predicate Valid()
      reads this
    {
      OptionsConsistent() && (loading ==> pollQuestion.None? && pollOptions == [])
    }

    ghost predicate OptionsConsistent()
      reads this
    {
      && AtMostOneSelected(pollOptions)
      && (forall i :: 0 <= i < |pollOptions| && pollOptions[i].selected ==> pollOptions[i].text == chosenOption)
      && (pollOptions == [] || Texts(pollOptions) == Decorate(generatedOptions))
    }

    /** The submit button is rendered: a question is shown, nothing was submitted, and there are options. */
    function SubmitShown(): (shown: bool)
      reads this
      ensures shown ==> pollQuestion.Some? && !submitted && pollOptions != []
    {
      pollQuestion.Some? && pollQuestion.value != "" && !submitted && |pollOptions| > 0
    }

    constructor(headline: string, details: string)
      ensures Valid()
      ensures this.headline == headline && this.details == details
      ensures selectedNews == NewsItem("", "") && selectedReligion == "🙏 Hinduism"
      ensures generatedQuestion == "" && generatedOptions == []
      ensures pollQuestion == None && pollOptions == []
      ensures !loading && !submitted && chosenOption == ""
    {
      this.headline, this.details := headline, details;
      selectedNews := NewsItem("", "");
      selectedReligion := "🙏 Hinduism";
      generatedQuestion, generatedOptions := "", [];
      pollQuestion, pollOptions := None, [];
      loading, submitted := false, false;
      chosenOption := "";
    }

    /** A religion button of the card. */
    method SelectReligion(religion: string)
      requires Valid() && religion in Religions
      modifies this`selectedReligion
      ensures Valid() && selectedReligion == religion
    {
      selectedReligion := religion;
    }

    /** The synchronous start of `generatePoll`; the button is disabled while `loading`. */
    method BeginGeneration()
      requires Valid() && !loading
      modifies this`loading, this`pollQuestion, this`pollOptions, this`submitted
      ensures Valid()
      ensures loading && pollQuestion == None && pollOptions == [] && !submitted
    {
      loading := true;
      pollQuestion := None;
      pollOptions := [];
      submitted := false;
    }

    /** The rest of `generatePoll`, once `/api/chat` has answered or failed. */
    method FinishGeneration(outcome: ChatOutcome)
      requires Valid() && loading
      modifies this`loading, this`pollQuestion, this`pollOptions,
        this`generatedQuestion, this`generatedOptions, this`selectedNews
      ensures Valid() && !loading
      ensures outcome.ChatFailed? ==>
        && pollQuestion == Some(ErrorQuestion) && pollOptions == []
        && generatedQuestion == old(generatedQuestion) && generatedOptions == old(generatedOptions)
        && selectedNews == old(selectedNews)
      ensures outcome.ChatReply? && (outcome.message.None? || outcome.message.value == "") ==>
        && pollQuestion == None && pollOptions == []
        && generatedQuestion == old(generatedQuestion) && generatedOptions == old(generatedOptions)
        && selectedNews == old(selectedNews)
      ensures outcome.ChatReply? && outcome.message.Some? && outcome.message.value != "" ==>
        var parsed := ParseReply(outcome.message.value);
        && pollQuestion == Some(parsed.question)
        && Texts(pollOptions) == Decorate(parsed.options)
        && (forall i :: 0 <= i < |pollOptions| ==> !pollOptions[i].selected)
        && generatedQuestion == parsed.question && generatedOptions == parsed.options
        && selectedNews == NewsItem(headline, details)
      ensures outcome.ChatNonText? ==>
        && pollQuestion == Some(FallbackQuestion) && pollOptions == []
        && generatedQuestion == FallbackQuestion && generatedOptions == []
        && selectedNews == NewsItem(headline, details)
    {
      match outcome {
        case ChatFailed =>
          pollQuestion := Some(ErrorQuestion);
        case ChatReply(message) =>
          if message.Some? && message.value != "" {
            ShowParsed(ParseReply(message.value));
          }
        case ChatNonText =>
          ShowParsed(ParsedReply(FallbackQuestion, []));
      }
      loading := false;
    }

    /** The state updates of `generatePoll` once a reply text has been parsed (Poll.tsx:90-96). */
    method ShowParsed(parsed: ParsedReply)
      requires OptionsConsistent()
      modifies this`pollQuestion, this`pollOptions,
        this`generatedQuestion, this`generatedOptions, this`selectedNews
      ensures OptionsConsistent()
      ensures pollQuestion == Some(parsed.question)
      ensures Texts(pollOptions) == Decorate(parsed.options)
      ensures forall i :: 0 <= i < |pollOptions| ==> !pollOptions[i].selected
      ensures generatedQuestion == parsed.question && generatedOptions == parsed.options
      ensures selectedNews == NewsItem(headline, details)
    {
      pollQuestion := Some(parsed.question);
      pollOptions := DisplayOptions(parsed.options);
      generatedQuestion := parsed.question;
      generatedOptions := parsed.options;
      selectedNews := NewsItem(headline, details);
    }

    /** `generatePoll` run to completion: the reset, then the outcome of the request. */
    method GeneratePoll(outcome: ChatOutcome)
      requires Valid() && !loading
      modifies this`loading, this`pollQuestion, this`pollOptions, this`submitted,
        this`generatedQuestion, this`generatedOptions, this`selectedNews
      ensures Valid() && !loading && !submitted
      ensures outcome.ChatFailed? ==> pollQuestion == Some(ErrorQuestion) && pollOptions == []
      ensures outcome.ChatReply? && (outcome.message.None? || outcome.message.value == "") ==>
        pollQuestion == None && pollOptions == []
      ensures outcome.ChatReply? && outcome.message.Some? && outcome.message.value != "" ==>
        var parsed := ParseReply(outcome.message.value);
        && pollQuestion == Some(parsed.question)
        && Texts(pollOptions) == Decorate(parsed.options)
        && (forall i :: 0 <= i < |pollOptions| ==> !pollOptions[i].selected)
        && generatedQuestion == parsed.question && generatedOptions == parsed.options
        && selectedNews == NewsItem(headline, details)
      ensures outcome.ChatNonText? ==>
        && pollQuestion == Some(FallbackQuestion) && pollOptions == []
        && generatedQuestion == FallbackQuestion && generatedOptions == []
        && selectedNews == NewsItem(headline, details)
      ensures (outcome.ChatFailed? || (outcome.ChatReply? && (outcome.message.None? || outcome.message.value == ""))) ==>
        generatedQuestion == old(generatedQuestion) && generatedOptions == old(generatedOptions)
        && selectedNews == old(selectedNews)
      ensures SubmitShown() <==>
        && outcome.ChatReply? && outcome.message.Some? && outcome.message.value != ""
        && ParseReply(outcome.message.value).question != "" && ParseReply(outcome.message.value).options != []
    {
      BeginGeneration();
      FinishGeneration(outcome);
    }

    /** `handleSelectOption(index)`: exactly option `index` becomes selected and its text is remembered. */
    method HandleSelectOption(index: nat)
      requires Valid() && index < |pollOptions|
      modifies this`pollOptions, this`chosenOption
      ensures Valid()
      ensures pollOptions == SelectOnly(old(pollOptions), index)
      ensures chosenOption == old(pollOptions)[index].text
    {
      var selectedText := pollOptions[index].text;
      pollOptions := SelectOnly(pollOptions, index);
      chosenOption := selectedText;
      assert Texts(pollOptions)[index] == selectedText;
    }

    /** `savePoll(selectedOption)`: the full record it sends, and the line it logs; it never throws. */
    method SavePoll(selectedOption: string, outcome: SaveOutcome) returns (sent: PollRecord, log: LogLine)
      ensures sent.headline == selectedNews.title && sent.description == selectedNews.description
      ensures sent.religion == selectedReligion
      ensures sent.pollQuestion == generatedQuestion && sent.options == generatedOptions
      ensures sent.userChoice == selectedOption
      ensures log == SaveLog(outcome)
    {
      sent := PollRecord(selectedNews.title, selectedNews.description, selectedReligion,
                         generatedQuestion, generatedOptions, selectedOption);
      log := SaveLog(outcome);
    }

    /**
      `handleSubmitAnswer`: with nothing selected, only an alert. Otherwise
      `submitted` is set first, the answer record is sent, and the full
      record is sent only if that first request did not throw.
    */
    method HandleSubmitAnswer(answerWrite: FetchOutcome, saveOutcome: SaveOutcome)
      returns (answer: Option<AnswerRecord>, poll: Option<PollRecord>, log: Option<LogLine>, alert: Option<string>)
      requires Valid()
      modifies this`submitted
      ensures Valid()
      ensures var selected := SelectedText(pollOptions);
        if selected.None? || selected.value == "" then
          && submitted == old(submitted)
          && answer == None && poll == None && log == None && alert == Some(SelectFirstAlert)
        else
          && submitted && !SubmitShown()
          && answer == Some(AnswerRecord(headline, pollQuestion, selected.value, CategoryOrGeneral(selectedReligion)))
          && (answerWrite.Threw? ==> poll == None && log == None && alert == Some(SubmitFailedAlert))
          && (answerWrite.Delivered? ==>
                && poll == Some(PollRecord(selectedNews.title, selectedNews.description, selectedReligion,
                                           generatedQuestion, generatedOptions, selected.value))
                && log == Some(SaveLog(saveOutcome)) && alert == None)
      ensures answer.Some? ==> answer.value.selectedOption == chosenOption
      ensures poll.Some? ==> exists i :: 0 <= i < |generatedOptions| && poll.value.userChoice == Marker(i) + " " + generatedOptions[i]
    {
      var found := FirstSelectedFrom(pollOptions, 0);
      if found.None? || pollOptions[found.value].text == "" {
        answer, poll, log, alert := None, None, None, Some(SelectFirstAlert);
        return;
      }
      var i := found.value;
      var selected := pollOptions[i].text;
      assert Texts(pollOptions)[i] == selected;
      submitted := true;
      answer := Some(AnswerRecord(headline, pollQuestion, selected, CategoryOrGeneral(selectedReligion)));
      if answerWrite.Threw? {
        poll, log, alert := None, None, Some(SubmitFailedAlert);
      } else {
        var sent, line := SavePoll(selected, saveOutcome);
        poll, log, alert := Some(sent), Some(line), None;
      }
    }
  }
}
