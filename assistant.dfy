/** The decisions the backend (backend/app.py) makes around its calls to the
    language model: whether a resume yields a usable candidate name, which
    recommendation prompt a topic selects, how a reply wrapped in a markdown
    fence is unwrapped, and which prompt the guided solver builds for a stage
    and a conversation. The model's replies are inputs here. */
module Assistant {
  import opened Wrappers
  import opened Text

  // ---------------------------------------------------------------------------
  // extract_candidate_name

  const FallbackName := "the candidate"
  const MaxNameWords := 4
  const MaxNameLength := 50

  /** The stripped, non-blank lines among `lines`, in order. */
  function NonBlank(lines: seq<string>): (kept: seq<string>)
    ensures |kept| <= |lines|
  {
    if lines == [] then []
    else (if Strip(lines[0]) != "" then [Strip(lines[0])] else []) + NonBlank(lines[1..])
  }

  /** Every line of `lines` starts and ends with non-whitespace. */
  predicate AllTrimmed(lines: seq<string>)
  {
    forall i :: 0 <= i < |lines| ==> Trimmed(lines[i])
  }

  /** Every line `NonBlank` keeps is trimmed. */
  lemma {:induction false} NonBlankTrimmed(lines: seq<string>)
    ensures AllTrimmed(NonBlank(lines))
    decreases |lines|
  {
    if lines != [] {
      NonBlankTrimmed(lines[1..]);
      var head := if Strip(lines[0]) != "" then [Strip(lines[0])] else [];
      StripTrimmed(lines[0]);
      assert forall i :: 0 <= i < |head| ==> Trimmed(head[i]);
      assert NonBlank(lines) == head + NonBlank(lines[1..]);
    }
  }

  /** `first_lines`: the non-blank lines among the first five lines of the
      stripped resume text, each stripped. */
  function FirstLines(text: string): (firstLines: seq<string>)
    ensures |firstLines| <= 5
    ensures AllTrimmed(firstLines)
  {
    var lines := SplitLines(Strip(text));
    var firstFive := lines[..if |lines| < 5 then |lines| else 5];
    NonBlankTrimmed(firstFive);
    NonBlank(firstFive)
  }

  /** The reply is accepted as a name when, stripped, it has one to four words
      and fewer than 50 characters. */
  predicate AcceptableName(name: string)
  {
    1 <= WordCount(name) <= MaxNameWords && |name| < MaxNameLength
  }

  /** `extract_candidate_name(text)`. `reply` is the model's answer, `None`
      when the call raised (the handler then falls back as well). The result is
      either the fallback or the stripped reply, and the reply only when it
      passes the name check and the resume had a non-blank line to ask about. */
  function CandidateName(text: string, reply: Option<string>): (name: string)
    ensures name == FallbackName
            || (FirstLines(text) != [] && reply.Some? && name == Strip(reply.value) && AcceptableName(name))
    ensures FirstLines(text) != [] && reply.Some? && AcceptableName(Strip(reply.value))
            ==> name == Strip(reply.value)
  {
    if FirstLines(text) == [] then FallbackName
    else match reply
      case None => FallbackName
      case Some(r) => if AcceptableName(Strip(r)) then Strip(r) else FallbackName
  }

  /** The first line of text that does not start with a newline starts with
      the text's first character. */
  lemma SplitLinesFirst(s: string)
    requires s != [] && s[0] != '\n'
    ensures SplitLines(s)[0] != [] && SplitLines(s)[0][0] == s[0]
  {
  }

  /** The first lines of a blank resume are none. */
  lemma BlankTextHasNoLines(text: string)
    requires AllSpace(text)
    ensures FirstLines(text) == []
  {
    StripEmptyIffAllSpace(text);
    var lines := SplitLines(Strip(text));
    assert lines == [""];
    assert lines[..1] == [""];
    assert Strip("") == "" by { StripEmptyIffAllSpace(""); }
    assert NonBlank([""]) == [] + NonBlank([]);
  }

  /** A list of lines whose first one is not blank keeps that line. */
  lemma NonBlankKeepsHead(lines: seq<string>)
    requires lines != [] && !AllSpace(lines[0])
    ensures NonBlank(lines) != []
  {
    StripEmptyIffAllSpace(lines[0]);
    assert NonBlank(lines) == [Strip(lines[0])] + NonBlank(lines[1..]);
  }

  /** A resume with a word in it has a first line to ask about. */
  lemma WordyTextHasLine(text: string)
    requires !AllSpace(text)
    ensures FirstLines(text) != []
  {
    var t := Strip(text);
    StripEmptyIffAllSpace(text);
    StripEnds(text);
    assert t[0] != '\n' by { assert IsSpace('\n'); }
    SplitLinesFirst(t);
    var lines := SplitLines(t);
    var firstFive := lines[..if |lines| < 5 then |lines| else 5];
    assert firstFive[0] == lines[0];
    assert !AllSpace(lines[0]) by { assert !IsSpace(lines[0][0]); }
    NonBlankKeepsHead(firstFive);
  }

  /** A resume yields no line to ask about exactly when its text is blank. */
  lemma FirstLinesEmptyIffBlank(text: string)
    ensures FirstLines(text) == [] <==> AllSpace(text)
  {
    if AllSpace(text) {
      BlankTextHasNoLines(text);
    } else {
      WordyTextHasLine(text);
    }
  }

  /** A blank reply is never taken for a name. */
  lemma BlankReplyRejected(text: string, reply: string)
    requires AllSpace(reply)
    ensures CandidateName(text, Some(reply)) == FallbackName
  {
    StripEmptyIffAllSpace(reply);
    WordStartsZero(Strip(reply), true);
  }

  /** An accepted name carries no surrounding whitespace. */
  lemma AcceptedNameIsTrimmed(text: string, reply: Option<string>)
    ensures CandidateName(text, reply) == FallbackName || Trimmed(CandidateName(text, reply))
  {
    if FirstLines(text) != [] && reply.Some? && AcceptableName(Strip(reply.value)) {
      var n := Strip(reply.value);
      assert n != [] by {
        assert WordStarts(n, true) >= 1;
      }
      StripEnds(reply.value);
    }
  }

  // ---------------------------------------------------------------------------
  // suggest_problems

  /** `topic and topic.lower() != 'none'`: a topic-specific prompt is built for
      a non-empty topic other than "none" in any letter case. */
  predicate WantsSpecificTopic(topic: Option<string>)
  {
    topic.Some? && topic.value != "" && Lower(topic.value) != "none"
  }

  /** The topic test, stated without `lower()`: a given topic is ignored
      exactly when it is empty or spells "none" in any mix of cases. */
  lemma {:induction false} TopicIgnoredIffNone(t: string)
    ensures !WantsSpecificTopic(Some(t))
            <==> t == "" || (|t| == 4 && (t[0] == 'n' || t[0] == 'N') && (t[1] == 'o' || t[1] == 'O')
                             && (t[2] == 'n' || t[2] == 'N') && (t[3] == 'e' || t[3] == 'E'))
  {
    var l := Lower(t);
    if |t| == 4 {
      assert l == "none" <==> l[0] == 'n' && l[1] == 'o' && l[2] == 'n' && l[3] == 'e';
    } else {
      assert |l| != |"none"|;
    }
  }

  const Fence := "```"

  /** A fence starts at position `i` of `s`. */
  predicate FenceAt(s: string, i: int)
  {
    0 <= i && i + 3 <= |s| && s[i] == '`' && s[i + 1] == '`' && s[i + 2] == '`'
  }

  /** No fence starts anywhere in `s`. */
  predicate NoFence(s: string)
  {
    forall i :: 0 <= i < |s| ==> !FenceAt(s, i)
  }

  /** The text before the first fence in `s` (all of `s` when there is none):
      the second piece of `reply.split('```')` when `reply` starts with a fence. */
  function UntilFence(s: string): (r: string)
    ensures |r| <= |s| && r == s[..|r|]
  {
    if s == [] || FenceAt(s, 0) then [] else [s[0]] + UntilFence(s[1..])
  }

  /** Stripped text is empty or trimmed. */
  lemma StripTrimmed(s: string)
    ensures Strip(s) == [] || Trimmed(Strip(s))
  {
    if Strip(s) != [] {
      StripEnds(s);
    }
  }

  /** The fence stripping of `suggest_problems` as the source writes it: the
      language tag test looks at the stripped piece, but the four characters
      are cut from the unstripped one. */
  function StripFencesAsWritten(reply: string): (parsed: string)
    ensures parsed == [] || Trimmed(parsed)
    ensures |parsed| <= |reply|
  {
    var text := Strip(reply);
    if !FenceAt(text, 0) then StripTrimmed(reply); text
    else
      var piece := UntilFence(text[|Fence|..]);
      var untagged := if StartsWith(Strip(piece), "json") && |piece| >= 4 then piece[4..] else piece;
      StripTrimmed(untagged); Strip(untagged)
  }

  /** The fence stripping as intended: the piece between the first two fences,
      without its "json" tag, stripped. */
  function StripFences(reply: string): (parsed: string)
    ensures parsed == [] || Trimmed(parsed)
    ensures |parsed| <= |reply|
  {
    var text := Strip(reply);
    if !FenceAt(text, 0) then StripTrimmed(reply); text
    else
      var piece := Strip(UntilFence(text[|Fence|..]));
      var untagged := if StartsWith(piece, "json") then piece[4..] else piece;
      StripTrimmed(untagged); Strip(untagged)
  }

  /** `s` starts and ends with non-whitespace. */
  predicate Trimmed(s: string)
  {
    s != [] && !IsSpace(s[0]) && !IsSpace(s[|s| - 1])
  }

  /** A JSON body in a fence tagged "json", with `lead` between the opening
      fence and the tag. */
  function FencedReply(lead: string, body: string): string
  {
    Fence + TaggedPiece(lead, body) + Fence
  }

  /** The text between the two fences of `FencedReply(lead, body)`. */
  function TaggedPiece(lead: string, body: string): string
  {
    lead + "json\n" + body + "\n"
  }

  /** The text before a fence, when no earlier position starts one. */
  lemma {:induction false} UntilFenceStops(p: string, q: string)
    requires FenceAt(q, 0)
    requires forall i :: 0 <= i < |p| ==> !FenceAt(p + q, i)
    ensures UntilFence(p + q) == p
    decreases |p|
  {
    if p == [] {
      assert p + q == q;
    } else {
      assert !FenceAt(p + q, 0);
      assert (p + q)[1..] == p[1..] + q;
      forall i | 0 <= i < |p[1..]| ensures !FenceAt(p[1..] + q, i) {
        assert !FenceAt(p + q, i + 1);
      }
      UntilFenceStops(p[1..], q);
    }
  }

  /** No fence starts inside the tagged piece, nor across its end. */
  lemma NoFenceInsidePiece(lead: string, body: string)
    requires AllSpace(lead) && NoFence(body)
    ensures var p := TaggedPiece(lead, body);
            forall i :: 0 <= i < |p| ==> !FenceAt(p + Fence, i)
  {
    var p := TaggedPiece(lead, body);
    var w := p + Fence;
    var off := |lead| + 5;
    assert |p| == off + |body| + 1;
    assert w[off + |body|] == '\n';
    forall i | 0 <= i < |p| ensures !FenceAt(w, i) {
      if i < |lead| {
        assert w[i] == lead[i];
        assert IsSpace(lead[i]);
      } else if i < off {
        assert w[i] == "json\n"[i - |lead|];
      } else if i + 2 < off + |body| {
        assert w[i] == body[i - off] && w[i + 1] == body[i - off + 1] && w[i + 2] == body[i - off + 2];
        assert !FenceAt(body, i - off);
      } else {
        assert i == off + |body| || i + 1 == off + |body| || i + 2 == off + |body|;
      }
    }
  }

  /** A fenced reply is already stripped and starts with its fence. */
  lemma FencedReplyStripped(lead: string, body: string)
    ensures var reply := FencedReply(lead, body);
            Strip(reply) == reply && FenceAt(reply, 0)
  {
    var reply := FencedReply(lead, body);
    assert reply[0] == '`' && reply[1] == '`' && reply[2] == '`' && reply[|reply| - 1] == '`';
    StripStable(reply);
  }

  /** The piece after the opening fence ends at the closing one. */
  lemma FencedReplyPiece(lead: string, body: string)
    requires AllSpace(lead) && NoFence(body)
    ensures UntilFence(FencedReply(lead, body)[|Fence|..]) == TaggedPiece(lead, body)
  {
    var p := TaggedPiece(lead, body);
    assert FencedReply(lead, body)[|Fence|..] == p + Fence;
    NoFenceInsidePiece(lead, body);
    UntilFenceStops(p, Fence);
  }

  /** Stripping the tagged piece leaves the tag and the body. */
  lemma TaggedPieceStrips(lead: string, body: string)
    requires AllSpace(lead) && Trimmed(body)
    ensures Strip(TaggedPiece(lead, body)) == "json\n" + body
  {
    var tagged := "json\n" + body;
    assert TaggedPiece(lead, body) == lead + tagged + "\n";
    assert tagged[0] == 'j' && tagged[|tagged| - 1] == body[|body| - 1];
    assert AllSpace("\n") by { assert "\n"[0] == '\n'; }
    StripAround(lead, tagged, "\n");
  }

  /** Dropping the tag and stripping leaves the body. */
  lemma TagDropped(body: string)
    requires Trimmed(body)
    ensures StartsWith("json\n" + body, "json")
    ensures Strip(("json\n" + body)[4..]) == body
  {
    var tagged := "json\n" + body;
    assert tagged[..4] == "json";
    assert tagged[4..] == "\n" + body + "";
    assert AllSpace("\n") by { assert "\n"[0] == '\n'; }
    StripAround("\n", body, "");
  }

  /** A reply fenced as "```json" ... "```" around a trimmed, fence-free body,
      with any whitespace before the tag, comes back as exactly that body. */
  lemma FencedReplyRoundTrip(lead: string, body: string)
    requires AllSpace(lead) && Trimmed(body) && NoFence(body)
    ensures StripFences(FencedReply(lead, body)) == body
  {
    FencedReplyStripped(lead, body);
    FencedReplyPiece(lead, body);
    TaggedPieceStrips(lead, body);
    TagDropped(body);
  }

  /** A reply without a fence is only stripped. */
  lemma UnfencedReplyStripped(reply: string)
    requires !FenceAt(Strip(reply), 0)
    ensures StripFences(reply) == Strip(reply) == StripFencesAsWritten(reply)
  {
  }

  /** The source's version cuts the first four characters of the unstripped
      piece of a fenced reply. */
  lemma AsWrittenCutsPiece(lead: string, body: string)
    requires AllSpace(lead) && Trimmed(body) && NoFence(body)
    ensures StripFencesAsWritten(FencedReply(lead, body)) == Strip(TaggedPiece(lead, body)[4..])
  {
    FencedReplyStripped(lead, body);
    FencedReplyPiece(lead, body);
    TaggedPieceStrips(lead, body);
    TagDropped(body);
  }

  /** Cutting four characters from the piece leaves the body when the tag
      comes first. */
  lemma UnspacedPieceCut(body: string)
    requires Trimmed(body)
    ensures Strip(TaggedPiece("", body)[4..]) == body
  {
    assert TaggedPiece("", body)[4..] == "\n" + body + "\n";
    assert AllSpace("\n") by { assert "\n"[0] == '\n'; }
    StripAround("\n", body, "\n");
  }

  /** Cutting four characters from the piece leaves the tag's last letter and
      its newline when a space precedes the tag. */
  lemma SpacedPieceCut(body: string)
    requires Trimmed(body)
    ensures Strip(TaggedPiece(" ", body)[4..]) == "n\n" + body
  {
    var rest := "n\n" + body;
    assert TaggedPiece(" ", body)[4..] == "" + rest + "\n";
    assert rest[0] == 'n' && rest[|rest| - 1] == body[|body| - 1];
    assert AllSpace("\n") by { assert "\n"[0] == '\n'; }
    StripAround("", rest, "\n");
  }

  /** The source's version agrees when the tag follows the fence directly. */
  lemma AsWrittenTagRightAfterFence(body: string)
    requires Trimmed(body) && NoFence(body)
    ensures StripFencesAsWritten(FencedReply("", body)) == body
  {
    AsWrittenCutsPiece("", body);
    UnspacedPieceCut(body);
  }

  /** The source's version breaks on a space between the fence and the tag:
      it finds the tag in the stripped piece " json\n...\n" but cuts " jso"
      from the unstripped one, so the JSON parser gets "n\n" before the body;
      the intended version gives the body. */
  lemma FenceTagMisread(body: string)
    requires Trimmed(body) && NoFence(body)
    ensures StripFencesAsWritten(FencedReply(" ", body)) == "n\n" + body
    ensures StripFences(FencedReply(" ", body)) == body
  {
    assert AllSpace(" ") by { assert " "[0] == ' '; }
    AsWrittenCutsPiece(" ", body);
    SpacedPieceCut(body);
    FencedReplyRoundTrip(" ", body);
  }

  /** What `suggest_problems` asks for and gets back: the topic it names in
      the prompt (`None` for general recommendations) and the text it hands to
      the JSON parser. */
  datatype Suggestion = Suggestion(topic: Option<string>, jsonText: string)

  /** The refusals of `suggest_problems` and `solve_problem`. */
  datatype AssistError = ApiKeyMissing | UserIdMissing | ProblemMissing | InvalidStage

  /** The HTTP status of each refusal. */
  function AssistStatus(e: AssistError): int
  {
    match e
    case ApiKeyMissing => 500
    case UserIdMissing => 400
    case ProblemMissing => 400
    case InvalidStage => 400
  }

  /** `suggest_problems` around the model call: without an API key nothing
      happens, then a missing user id is refused; the topic test picks the
      prompt; the reply is unwrapped from its fence. */
  function Suggest(apiKeyConfigured: bool, userId: Option<int>, topic: Option<string>, reply: string)
    : (r: Result<Suggestion, AssistError>)
    ensures !apiKeyConfigured ==> r == Err(ApiKeyMissing)
    ensures r == Err(UserIdMissing) <==> apiKeyConfigured && (userId.None? || userId.value == 0)
    ensures r.Ok? ==> (r.value.topic.Some? <==> WantsSpecificTopic(topic))
    ensures r.Ok? && r.value.topic.Some? ==> r.value.topic == topic
    ensures r.Ok? <==> apiKeyConfigured && userId.Some? && userId.value != 0
    ensures r.Ok? ==> r.value.jsonText == StripFences(reply)
  {
    if !apiKeyConfigured then Err(ApiKeyMissing)
    else if userId.None? || userId.value == 0 then Err(UserIdMissing)
    else Ok(Suggestion(if WantsSpecificTopic(topic) then topic else None, StripFences(reply)))
  }

  // ---------------------------------------------------------------------------
  // solve_problem

  /** One message of `conversation_history`; a missing key reads as "". */
  datatype Message = Message(role: string, content: string)

  /** One turn of the context handed to the model, labelled by speaker. */
  datatype Turn = Student(said: string) | Mentor(said: string)

  /** How specific a hint must be. */
  datatype HintTier = FirstHint | SecondHint | ThirdHint | FinalHint

  /** The prompt the guided solver builds for each stage. */
  datatype Prompt =
    | Explain(problem: string)
    | Hint(tier: HintTier, problem: string, context: seq<Turn>)
    | Feedback(thought: string, problem: string, context: seq<Turn>)
    | Solution(problem: string, context: seq<Turn>)

  /** The turns the context keeps: student and mentor messages, in order,
      every other role dropped. */
  function Transcript(history: seq<Message>): (turns: seq<Turn>)
    ensures |turns| <= |history|
  {
    if history == [] then []
    else
      var m := history[0];
      (if m.role == "user" then [Student(m.content)]
       else if m.role == "assistant" then [Mentor(m.content)]
       else []) + Transcript(history[1..])
  }

  /** A message asks for a hint when the student wrote it and it mentions "hint". */
  predicate AsksForHint(m: Message)
  {
    m.role == "user" && Contains(Lower(m.content), "hint")
  }

  /** `hint_count`: how many student messages asked for a hint. */
  function HintCount(history: seq<Message>): (count: nat)
    ensures count <= |history|
  {
    if history == [] then 0 else (if AsksForHint(history[0]) then 1 else 0) + HintCount(history[1..])
  }

  /** The hint instruction chosen by the number of hints asked for so far. */
  function TierFor(count: nat): (tier: HintTier)
    ensures tier == FirstHint <==> count == 0
    ensures tier == SecondHint <==> count == 1
    ensures tier == ThirdHint <==> count == 2
    ensures tier == FinalHint <==> count >= 3
  {
    if count == 0 then FirstHint else if count == 1 then SecondHint
    else if count == 2 then ThirdHint else FinalHint
  }

  /** The `stage` field of the request: left out (the handler then uses
      "explain"), a string, or any other JSON value, `null` included, which
      matches no stage. */
  datatype StageField = StageOmitted | StageGiven(name: string) | StageNotString

  /** The stages the guided solver knows. */
  predicate KnownStage(stage: StageField)
  {
    stage.StageOmitted? || (stage.StageGiven? && stage.name in {"explain", "hint", "feedback", "solution"})
  }

  /** `solve_problem` up to the model call. `problem` and `userInput` are the
      fields as sent; the handler strips them. */
  function SolvePrompt(apiKeyConfigured: bool, problem: string, stage: StageField,
                       userInput: string, history: seq<Message>): (r: Result<Prompt, AssistError>)
    ensures !apiKeyConfigured ==> r == Err(ApiKeyMissing)
    ensures r == Err(ProblemMissing) <==> apiKeyConfigured && Strip(problem) == ""
    ensures r == Err(InvalidStage) <==> apiKeyConfigured && Strip(problem) != "" && !KnownStage(stage)
    ensures r.Ok? <==> apiKeyConfigured && Strip(problem) != "" && KnownStage(stage)
    ensures r.Ok? ==> r.value.problem == Strip(problem) != ""
    ensures r.Ok? ==> (r.value.Explain? <==> stage == StageOmitted || stage == StageGiven("explain"))
                      && (r.value.Hint? <==> stage == StageGiven("hint"))
                      && (r.value.Feedback? <==> stage == StageGiven("feedback"))
                      && (r.value.Solution? <==> stage == StageGiven("solution"))
    ensures r.Ok? && r.value.Hint? ==> r.value.tier == TierFor(HintCount(history))
    ensures r.Ok? && !r.value.Explain? ==> r.value.context == Transcript(history)
    ensures r.Ok? && r.value.Feedback? ==> r.value.thought == Strip(userInput)
  {
    var p := Strip(problem);
    if !apiKeyConfigured then Err(ApiKeyMissing)
    else if p == "" then Err(ProblemMissing)
    else match stage
      case StageNotString => Err(InvalidStage)
      case StageOmitted => Ok(Explain(p))
      case StageGiven(s) =>
        if s == "explain" then Ok(Explain(p))
        else if s == "hint" then Ok(Hint(TierFor(HintCount(history)), p, Transcript(history)))
        else if s == "feedback" then Ok(Feedback(Strip(userInput), p, Transcript(history)))
        else if s == "solution" then Ok(Solution(p, Transcript(history)))
        else Err(InvalidStage)
  }

  /** The context of a longer conversation extends that of a shorter one:
      turns are kept in order and never merged across messages. */
  lemma {:induction false} TranscriptAppend(h1: seq<Message>, h2: seq<Message>)
    ensures Transcript(h1 + h2) == Transcript(h1) + Transcript(h2)
    decreases |h1|
  {
    if h1 == [] {
      assert h1 + h2 == h2;
    } else {
      assert (h1 + h2)[0] == h1[0];
      assert (h1 + h2)[1..] == h1[1..] + h2;
      TranscriptAppend(h1[1..], h2);
    }
  }

  /** One more message adds its turn at the end of the context: a student
      turn for a user message, a mentor turn for an assistant message, and
      nothing for any other role. */
  lemma TranscriptStep(history: seq<Message>, m: Message)
    ensures Transcript(history + [m]) == Transcript(history)
            + (if m.role == "user" then [Student(m.content)]
               else if m.role == "assistant" then [Mentor(m.content)]
               else [])
  {
    TranscriptAppend(history, [m]);
    assert [m][1..] == [];
  }

  /** Counting hints over a longer conversation adds up the parts. */
  lemma {:induction false} HintCountAppend(h1: seq<Message>, h2: seq<Message>)
    ensures HintCount(h1 + h2) == HintCount(h1) + HintCount(h2)
    decreases |h1|
  {
    if h1 == [] {
      assert h1 + h2 == h2;
    } else {
      assert (h1 + h2)[0] == h1[0];
      assert (h1 + h2)[1..] == h1[1..] + h2;
      HintCountAppend(h1[1..], h2);
    }
  }

  /** Hints only get more specific as the conversation grows, and each student
      request for a hint moves one tier up until the final one. */
  lemma HintTierProgresses(history: seq<Message>, m: Message)
    ensures TierFor(HintCount(history + [m])) == TierFor(HintCount(history))
            || (AsksForHint(m) && TierFor(HintCount(history + [m])) == TierFor(HintCount(history) + 1))
    ensures AsksForHint(m) ==> HintCount(history + [m]) == HintCount(history) + 1
    ensures !AsksForHint(m) ==> HintCount(history + [m]) == HintCount(history)
  {
    HintCountAppend(history, [m]);
    assert [m][1..] == [];
  }
}
