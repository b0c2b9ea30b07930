/** The grammar-checking workflow of app/store.js: the six cells that `factory`
    creates, the derived `correct` predicate, and the four methods it exposes.
    Each `async` method is split at its `await` into a step that runs up to the
    remote call and a step that runs when the reply arrives; the reply is a
    parameter, so any interleaving of the steps can be played out. */
module GrammarStore {
  import opened Wrappers
  import opened JsText

  /** Whether the word characters of `w`, in order, spell "correct" in any mix of cases:
      the reply by which the grammar service says the text needs no change. */
  predicate SpellsCorrect(w: string)
  {
    |w| == 7 && forall i :: 0 <= i < 7 ==> w[i] == "correct"[i] || w[i] == "CORRECT"[i]
  }

  /** The lower-cased word characters of a reply are "correct" exactly when those
      characters spell "correct" in some mix of cases; trimming first changes nothing. */
  lemma {:induction false} SentinelMatch(results: string)
    ensures ToLowerCase(StripNonWord(Trim(results))) == "correct"
            <==> SpellsCorrect(StripNonWord(results))
  {
    StripIgnoresTrim(results);
    LowerCaseIsCorrect(StripNonWord(results));
  }

  /** A string of word characters lower-cases to "correct" exactly when it spells
      "correct" in some mix of cases. */
  lemma {:induction false} LowerCaseIsCorrect(w: string)
    requires AllWordChars(w)
    ensures ToLowerCase(w) == "correct" <==> SpellsCorrect(w)
  {
    var l := ToLowerCase(w);
    if l == "correct" {
      forall i | 0 <= i < 7 ensures w[i] == "correct"[i] || w[i] == "CORRECT"[i] {
        assert l[i] == ToLowerChar(w[i]);
        LowerCaseOf(w[i], "correct"[i], "CORRECT"[i]);
      }
    }
    if SpellsCorrect(w) {
      forall i | 0 <= i < 7 ensures l[i] == "correct"[i] {
        LowerCaseOf(w[i], "correct"[i], "CORRECT"[i]);
      }
    }
  }

  /** A word character lower-cases to the letter `lo` exactly when it is `lo` or its
      upper-case form `up`. */
  lemma LowerCaseOf(c: char, lo: char, up: char)
    requires IsWordChar(c) && 'a' <= lo <= 'z' && up as int == lo as int - 32
    ensures ToLowerChar(c) == lo <==> c == lo || c == up
  {
  }

  /** The `correct` effect: the reply, trimmed, is the text exactly as typed (neither
      trimmed nor required to be non-empty), or the reply's word characters spell the
      sentinel "correct" in any mix of cases, whatever the text is. */
  function Correct(text: string, results: string): (r: bool)
    ensures r <==> Trim(results) == text || SpellsCorrect(StripNonWord(results))
  {
    SentinelMatch(results);
    Trim(results) == text || ToLowerCase(StripNonWord(Trim(results))) == "correct"
  }

  /** Only the sentinel can make an untrimmed text correct: when the text has
      whitespace at an end, no reply's trimmed form can equal it. */
  lemma {:induction false} UntrimmedTextNeedsSentinel(text: string, results: string)
    requires Trim(text) != text
    ensures Correct(text, results) <==> SpellsCorrect(StripNonWord(results))
  {
    if Trim(results) == text {
      TrimIdempotent(results);
      assert false;
    }
  }

  /** Whitespace around a reply never changes whether it counts as correct. */
  lemma {:induction false} CorrectIgnoresReplyPadding(text: string, results: string, p: string, q: string)
    requires AllWhitespace(p) && AllWhitespace(q)
    ensures Correct(text, p + results + q) == Correct(text, results)
  {
    TrimIgnoresPadding(p, results, q);
    StripOfPadded(p, results, q);
  }

  /** The predicate has no emptiness guard: an empty reply to an empty text, as in
      the initial state, is correct, and so is the bare sentinel. */
  lemma CorrectWithoutGuard()
    ensures Correct("", "")
    ensures Correct("", "correct")
  {
    StripKeepsWordChars("correct");
  }

  /** A reply equal to the text is correct. */
  lemma EchoExample()
    ensures Correct("loop", "loop")
  {
    assert Trim("loop") == "loop" by {
      TrimOfPadded([], "loop", []);
      assert [] + "loop" + [] == "loop";
    }
  }

  /** A reply equal to the text up to surrounding whitespace is correct. */
  lemma PaddedEchoExample()
    ensures Correct("loop", " loop\n")
  {
    assert Trim(" loop\n") == "loop" by {
      TrimOfPadded(" ", "loop", "\n");
      assert " " + "loop" + "\n" == " loop\n";
    }
  }

  /** A text with leading whitespace is not matched by its trimmed echo. */
  lemma UntrimmedTextExample()
    ensures !Correct(" loop", "loop")
  {
    assert Trim(" loop") != " loop" by {
      TrimOfPadded(" ", "loop", []);
      assert " " + "loop" + [] == " loop";
    }
    assert !SpellsCorrect(StripNonWord("loop")) by {
      StripKeepsWordChars("loop");
    }
    UntrimmedTextNeedsSentinel(" loop", "loop");
  }

  /** The sentinel matches whatever its case and punctuation, for any text. */
  lemma SentinelExample(text: string)
    ensures Correct(text, "Correct.")
  {
    assert SpellsCorrect("Correct");
    PunctuatedSentinel(text, "Correct", '.');
    assert "Correct" + ['.'] == "Correct.";
  }

  /** A sentinel followed by a punctuation mark makes any text correct. */
  lemma PunctuatedSentinel(text: string, w: string, c: char)
    requires SpellsCorrect(w) && !IsWordChar(c)
    ensures Correct(text, w + [c])
  {
    assert AllWordChars(w) by {
      forall i | 0 <= i < |w| ensures IsWordChar(w[i]) {
        assert w[i] == "correct"[i] || w[i] == "CORRECT"[i];
      }
    }
    StripTrailingPunctuation(w, c);
  }

  /** A punctuation mark after a word strips away. */
  lemma StripTrailingPunctuation(w: string, c: char)
    requires AllWordChars(w) && !IsWordChar(c)
    ensures StripNonWord(w + [c]) == w
  {
    StripConcat(w, [c]);
    StripKeepsWordChars(w);
  }

  /** A reply that differs from the text, and is not the sentinel, is not correct. */
  lemma MismatchExample()
    ensures !Correct("loop", "loops")
  {
    TrimOfPadded([], "loops", []);
    assert [] + "loops" + [] == "loops";
    StripKeepsWordChars("loops");
  }

  /** A reply that is neither blank nor the sentinel does not make the empty text
      correct. */
  lemma EmptyTextExample()
    ensures !Correct("", "anything")
  {
    assert Trim("anything") != "";
    StripKeepsWordChars("anything");
  }

  /** The values of the six cells `factory` creates. */
  datatype Cells = Cells(
    text: string,
    checking: bool,
    feedback: string,
    feedbackLoading: bool,
    feedbackOpen: bool,
    results: string)

  /** The initial values `factory` gives the cells. */
  const InitialCells := Cells("", false, "", false, false, "")

  /** The state and methods built by `factory`. The cells are fields the methods
      assign; `pendingChecks` and `pendingFeedback` count the remote calls that have
      been sent and not yet answered, which the source does not track. */
  class Workflow {
    var text: string
    var checking: bool
    var feedback: string
    var feedbackLoading: bool
    var feedbackOpen: bool
    var results: string
    ghost var pendingChecks: nat
    ghost var pendingFeedback: nat

    function Snapshot(): (c: Cells)
      reads this
    {
      Cells(text, checking, feedback, feedbackLoading, feedbackOpen, results)
    }

    /** The value of the derived `correct` cell: the trimmed reply is the text as
        typed, or the reply is the sentinel. */
    function IsCorrect(): (r: bool)
      reads this
      ensures r <==> Trim(results) == text || SpellsCorrect(StripNonWord(results))
    {
      Correct(text, results)
    }

    /** A loading flag is up only while a request of its kind is in flight. The
        methods keep this; it does not say the converse, which overlapping
        calls break. */
    ghost predicate FlagsTrackRequests()
      reads this
    {
      (checking ==> pendingChecks > 0) && (feedbackLoading ==> pendingFeedback > 0)
    }

    /** `factory()`: every cell at its initial value, nothing in flight. */
    constructor ()
      ensures Snapshot() == InitialCells
      ensures pendingChecks == 0 && pendingFeedback == 0
      ensures FlagsTrackRequests()
    {
      text, checking, feedback := "", false, "";
      feedbackLoading, feedbackOpen, results := false, false, "";
      pendingChecks, pendingFeedback := 0, 0;
    }

    /** `setText(newText)`: the text becomes `newText` as given, untrimmed;
        no other cell changes. */
    method SetText(newText: string)
      modifies this
      ensures Snapshot() == old(Snapshot()).(text := newText)
      ensures pendingChecks == old(pendingChecks) && pendingFeedback == old(pendingFeedback)
      ensures old(FlagsTrackRequests()) ==> FlagsTrackRequests()
    {
      text := newText;
    }

    /** `checkGrammar()` up to its `await`. Returns the text sent to the grammar
        service, or None when the trimmed text is empty: then it returns at once,
        changing nothing. Otherwise it raises `checking`, opens the feedback panel,
        leaves the old `results` in place and sends the trimmed text. */
    method CheckGrammarBegin() returns (request: Option<string>)
      modifies this
      ensures request.None? <==> AllWhitespace(old(text))
      ensures request.None? ==> Snapshot() == old(Snapshot()) && pendingChecks == old(pendingChecks)
      ensures request.Some? ==> request.value == Trim(old(text)) && request.value != ""
      ensures request.Some? ==> Snapshot() == old(Snapshot()).(checking := true, feedbackOpen := true)
      ensures request.Some? ==> pendingChecks == old(pendingChecks) + 1
      ensures pendingFeedback == old(pendingFeedback)
      ensures old(FlagsTrackRequests()) ==> FlagsTrackRequests()
    {
      var source := Trim(text);
      if source == "" {
        return None;
      }
      checking := true;
      feedbackOpen := true;
      pendingChecks := pendingChecks + 1;
      request := Some(source);
    }

    /** `checkGrammar()` after its `await`, with the service's `reply`: the reply
        becomes `results` and `checking` drops, even when another check is still in
        flight; `text`, `feedback` and the loading flag of feedback are untouched. */
    method CheckGrammarComplete(reply: string)
      requires pendingChecks > 0
      modifies this
      ensures Snapshot() == old(Snapshot()).(results := reply, checking := false)
      ensures pendingChecks == old(pendingChecks) - 1 && pendingFeedback == old(pendingFeedback)
      ensures old(FlagsTrackRequests()) ==> FlagsTrackRequests()
    {
      results := reply;
      checking := false;
      pendingChecks := pendingChecks - 1;
    }

    /** `askFeedback()` up to its `await`: raises `feedbackLoading` and sends the
        text as it is, untrimmed and possibly empty. */
    method AskFeedbackBegin() returns (request: string)
      modifies this
      ensures request == old(text)
      ensures Snapshot() == old(Snapshot()).(feedbackLoading := true)
      ensures pendingFeedback == old(pendingFeedback) + 1 && pendingChecks == old(pendingChecks)
      ensures old(FlagsTrackRequests()) ==> FlagsTrackRequests()
    {
      feedbackLoading := true;
      pendingFeedback := pendingFeedback + 1;
      request := text;
    }

    /** `askFeedback()` after its `await`: the reply becomes `feedback` and
        `feedbackLoading` drops; nothing else changes. */
    method AskFeedbackComplete(reply: string)
      requires pendingFeedback > 0
      modifies this
      ensures Snapshot() == old(Snapshot()).(feedback := reply, feedbackLoading := false)
      ensures pendingFeedback == old(pendingFeedback) - 1 && pendingChecks == old(pendingChecks)
      ensures old(FlagsTrackRequests()) ==> FlagsTrackRequests()
    {
      feedback := reply;
      feedbackLoading := false;
      pendingFeedback := pendingFeedback - 1;
    }

    /** `toggleFeedback()`: flips the feedback panel, whatever the text; nothing
        else changes. It has no `await`, so it is one step. */
    method ToggleFeedback()
      modifies this
      ensures Snapshot() == old(Snapshot()).(feedbackOpen := !old(feedbackOpen))
      ensures pendingChecks == old(pendingChecks) && pendingFeedback == old(pendingFeedback)
      ensures old(FlagsTrackRequests()) ==> FlagsTrackRequests()
    {
      feedbackOpen := !feedbackOpen;
    }
  }

  /** What the example session sends: the typed sentence without its trailing space. */
  lemma SessionRequest()
    ensures Trim("Ik ben gaan naar huis ") == "Ik ben gaan naar huis"
  {
    TrimOfPadded([], "Ik ben gaan naar huis", " ");
    assert [] + "Ik ben gaan naar huis" + " " == "Ik ben gaan naar huis ";
  }

  /** A reply that starts with a word character other than `c` or `C` is never the
      sentinel. */
  lemma {:induction false} NotSentinelByFirstChar(results: string)
    requires results != [] && IsWordChar(results[0]) && results[0] != 'c' && results[0] != 'C'
    ensures !SpellsCorrect(StripNonWord(results))
  {
    assert StripNonWord(results)[0] == results[0];
  }

  /** The example session's correction does not make its text correct. */
  lemma SessionVerdict()
    ensures !Correct("Ik ben gaan naar huis ", "Ik ben naar huis gegaan")
  {
    SessionRequest();
    NotSentinelByFirstChar("Ik ben naar huis gegaan");
    UntrimmedTextNeedsSentinel("Ik ben gaan naar huis ", "Ik ben naar huis gegaan");
  }

  /** Without the trailing space, the example session's correction still does not
      make the typed sentence correct: a correction that differs from the text is
      a verdict of "not correct". */
  lemma CorrectionExample()
    ensures !Correct("Ik ben gaan naar huis", "Ik ben naar huis gegaan")
  {
    assert Trim("Ik ben naar huis gegaan") == "Ik ben naar huis gegaan" by {
      TrimOfPadded([], "Ik ben naar huis gegaan", []);
      assert [] + "Ik ben naar huis gegaan" + [] == "Ik ben naar huis gegaan";
    }
    assert "Ik ben naar huis gegaan"[7] != "Ik ben gaan naar huis"[7];
    NotSentinelByFirstChar("Ik ben naar huis gegaan");
  }

  /** A text typed with a trailing space is judged incorrect even when the reply
      echoes exactly the trimmed request that `checkGrammar` sent. */
  lemma EchoOfRequestExample()
    ensures !Correct("Ik ben gaan naar huis ", "Ik ben gaan naar huis")
  {
    SessionRequest();
    NotSentinelByFirstChar("Ik ben gaan naar huis");
    UntrimmedTextNeedsSentinel("Ik ben gaan naar huis ", "Ik ben gaan naar huis");
  }

  /** `toggleFeedback()` twice restores every cell. */
  method ToggleTwice(w: Workflow)
    modifies w
    ensures w.Snapshot() == old(w.Snapshot())
  {
    w.ToggleFeedback();
    w.ToggleFeedback();
  }

  /** Two overlapping `checkGrammar()` calls: nothing blocks the second, the first
      reply drops `checking` while the second request is still in flight, and the
      reply that arrives last is what `results` holds. */
  method OverlappingChecks(w: Workflow, firstReply: string, lastReply: string)
    returns (checkingAfterFirstReply: bool, ghost inFlightAfterFirstReply: nat)
    requires !AllWhitespace(w.text)
    modifies w
    ensures !checkingAfterFirstReply && inFlightAfterFirstReply == old(w.pendingChecks) + 1
    ensures w.results == lastReply && !w.checking && w.feedbackOpen
    ensures w.text == old(w.text) && w.feedback == old(w.feedback)
    ensures w.feedbackLoading == old(w.feedbackLoading)
    ensures w.pendingChecks == old(w.pendingChecks)
  {
    var first := w.CheckGrammarBegin();
    var second := w.CheckGrammarBegin();
    w.CheckGrammarComplete(firstReply);
    checkingAfterFirstReply, inFlightAfterFirstReply := w.checking, w.pendingChecks;
    w.CheckGrammarComplete(lastReply);
  }

  /** The text is edited between two checks and the reply to the older request
      arrives last: `results` ends up holding the reply about the older text while
      `text` holds the newer one, and `correct` is judged on that pair. */
  method StaleReply(w: Workflow, older: string, newer: string, replyToNewer: string, replyToOlder: string)
    returns (sentFirst: Option<string>, sentSecond: Option<string>)
    requires !AllWhitespace(older) && !AllWhitespace(newer)
    modifies w
    ensures sentFirst == Some(Trim(older)) && sentSecond == Some(Trim(newer))
    ensures w.text == newer && w.results == replyToOlder && !w.checking
    ensures Trim(replyToOlder) == older && older != newer && !SpellsCorrect(StripNonWord(replyToOlder))
            ==> !w.IsCorrect()
  {
    w.SetText(older);
    sentFirst := w.CheckGrammarBegin();
    w.SetText(newer);
    sentSecond := w.CheckGrammarBegin();
    w.CheckGrammarComplete(replyToNewer);
    w.CheckGrammarComplete(replyToOlder);
  }

  /** A session on a fresh store: a Dutch sentence typed with a trailing space is
      checked and the service answers with a correction. The trimmed sentence is
      what is sent; afterwards the store holds the correction, is no longer
      checking, and the text is not correct. */
  method ExampleSession() returns (sent: Option<string>, results: string, checking: bool, correct: bool)
    ensures sent == Some("Ik ben gaan naar huis")
    ensures results == "Ik ben naar huis gegaan" && !checking && !correct
  {
    var w := new Workflow();
    w.SetText("Ik ben gaan naar huis ");
    SessionRequest();
    sent := w.CheckGrammarBegin();
    w.CheckGrammarComplete("Ik ben naar huis gegaan");
    SessionVerdict();
    results, checking, correct := w.results, w.checking, w.IsCorrect();
  }
}
