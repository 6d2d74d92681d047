/** The question dialog: it shows a question's value and text, reveals the answer on
    request, and reports back through two callbacks, recorded here as a log of calls. */
module QuestionModal {
  import opened Wrappers
  import opened JeopardyTypes
  import opened MathSegments
  import JsStrings
  import MathEditor

  /** The dialog's own math renderer: the text is segmented as it is, with no
      preprocessing and no line splitting; a text without math is one literal segment. */
  function RenderMathContent(text: string): (r: seq<Seg>)
    ensures Flatten(r) == text
    ensures |r| % 2 == 1
    ensures forall i :: 0 <= i < |r| ==> (r[i].Text? <==> i % 2 == 0)
    ensures !Contains(Double, text) && !Contains(Single, text) ==> r == [Text(text)]
  {
    SegmentRoundTrip(text);
    SegmentKinds(text);
    Segment(text)
  }

  /** On a non-blank single line that the editor's preprocessor leaves alone, the editor
      preview and the dialog agree. */
  lemma EditorPreviewAgrees(text: string)
    requires !JsStrings.IsBlank(text) && '\n' !in text && '/' !in text && '(' !in text
    ensures MathEditor.RenderMathContent(text) == MathEditor.Lines([RenderMathContent(text)])
  {
    MathEditor.RenderSingleLine(text);
    MathEditor.PreprocessIdentity(text);
  }

  /** The host's callbacks, in the order the dialog calls them. */
  datatype Outcall = Answered | Closed

  datatype Button = ShowAnswer | MarkAnswered | Close

  /** What the dialog displays: the value as its title, the question, the answer once
      revealed, and the action buttons. */
  datatype Card = Card(
    open: bool,
    value: int,
    question: seq<Seg>,
    answer: Option<seq<Seg>>,
    buttons: seq<Button>)

  class Dialog {
    var question: Option<Question>
    var isOpen: bool
    var showAnswer: bool
    var calls: seq<Outcall>

    constructor (question: Option<Question>, isOpen: bool)
      ensures this.question == question && this.isOpen == isOpen
      ensures !showAnswer && calls == []
    {
      this.question := question;
      this.isOpen := isOpen;
      showAnswer := false;
      calls := [];
    }

    /** New props from the host; the revealed flag is component state and survives. */
    method SetProps(question: Option<Question>, isOpen: bool)
      modifies this
      ensures this.question == question && this.isOpen == isOpen
      ensures showAnswer == old(showAnswer) && calls == old(calls)
    {
      this.question := question;
      this.isOpen := isOpen;
    }

    /** The Show Answer button. */
    method RevealAnswer()
      modifies this
      ensures showAnswer
      ensures question == old(question) && isOpen == old(isOpen) && calls == old(calls)
    {
      showAnswer := true;
    }

    /** The Close button and dismissing the dialog: the answer is hidden again and the
        host is told to close. */
    method HandleClose()
      modifies this
      ensures !showAnswer && calls == old(calls) + [Closed]
      ensures question == old(question) && isOpen == old(isOpen)
    {
      showAnswer := false;
      calls := calls + [Closed];
    }

    /** The Mark as Answered button: the host hears of the answer first, then of the
        close. */
    method HandleAnswered()
      modifies this
      ensures !showAnswer && calls == old(calls) + [Answered, Closed]
      ensures question == old(question) && isOpen == old(isOpen)
    {
      calls := calls + [Answered];
      showAnswer := false;
      calls := calls + [Closed];
    }

    /** Nothing is displayed without a question; the question and, once revealed, the
        answer are segmented by `RenderMathContent`; the answer and the two closing buttons
        appear exactly when the answer is revealed, the Show Answer button exactly when
        it is not. */
    function View(): (r: Option<Card>)
      reads this
      ensures r.None? <==> question.None?
      ensures r.Some? ==>
        && r.value.open == isOpen
        && r.value.value == question.value.value
        && r.value.question == RenderMathContent(question.value.question)
        && Flatten(r.value.question) == question.value.question
        && r.value.answer == (if showAnswer then Some(RenderMathContent(question.value.answer)) else None)
        && (r.value.answer.Some? ==> Flatten(r.value.answer.value) == question.value.answer)
        && (ShowAnswer in r.value.buttons <==> !showAnswer)
        && (MarkAnswered in r.value.buttons <==> showAnswer)
        && (Close in r.value.buttons <==> showAnswer)
    {
      match question
      case None => None
      case Some(q) =>
        Some(Card(
          isOpen,
          q.value,
          RenderMathContent(q.question),
          if showAnswer then Some(RenderMathContent(q.answer)) else None,
          if showAnswer then [MarkAnswered, Close] else [ShowAnswer]))
    }
  }
}
