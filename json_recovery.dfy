/**
 * The recovery ladder that turns the text of an LLM reply into a JSON value
 * (`extractQuoteData` and `compareQuotes` in src/lib/claude.ts), and the two
 * conditions that shape the comparison prompt.
 *
 * JSON parsing is a parameter `parse: string -> Option<J>` (`None` is a
 * `JSON.parse` exception); the ladder is generic in what `parse` produces,
 * because the parsed value is returned as a bare cast and never validated.
 */
module JsonRecovery {

  import opened Wrappers
  import opened Text
  import opened Js

  const Fence: string := "```"
  const JsonTag: string := "json"

  // ---------------------------------------------------------------------------
  // The fence regex /```(?:json)?\s*([\s\S]*?)```/
  // ---------------------------------------------------------------------------

  /**
   * A structural match of the fence regex: an opening fence at `p`, the `json`
   * tag when `tagged`, white space up to `s2`, a lazily matched group
   * `text[s2..q]` and a closing fence at `q`. Matches differ in which choices
   * they make; JavaScript picks the leftmost `p`, prefers the tag, takes as much
   * white space as possible and the shortest group.
   */
  ghost predicate IsFenceMatch(text: string, p: nat, tagged: bool, s2: nat, q: nat) {
    var s1 := p + |Fence| + (if tagged then |JsonTag| else 0);
    OccursAt(text, Fence, p)
    && (tagged ==> OccursAt(text, JsonTag, p + |Fence|))
    && s1 <= s2 <= q
    && OccursAt(text, Fence, q)
    && AllSpace(text[s1..s2])
  }

  /** The match the regex engine reports: where its group starts and ends. */
  datatype FenceSpan = FenceSpan(open: nat, tagged: bool, groupStart: nat, groupEnd: nat)

  /**
   * Where the group starts for an opening fence at `p`: after the fence, after
   * `json` when it follows, and after all white space that follows that.
   * No backtick occurs between the end of the fence and that point.
   */
  function GroupStart(text: string, p: nat): (r: nat)
    requires OccursAt(text, Fence, p)
    ensures p + |Fence| <= r <= |text|
    ensures var s1 := p + |Fence| + (if OccursAt(text, JsonTag, p + |Fence|) then |JsonTag| else 0);
      s1 <= r && AllSpace(text[s1..r])
    ensures r == |text| || !IsSpace(text[r])
    ensures forall k :: p + |Fence| <= k < r ==> text[k] != '`'
  {
    var tagged := OccursAt(text, JsonTag, p + |Fence|);
    var s1 := p + |Fence| + (if tagged then |JsonTag| else 0);
    var n := LeadingSpaces(text[s1..]);
    assert text[s1..s1 + n] == text[s1..][..n];
    assert forall k :: s1 <= k < s1 + n ==> IsSpace(text[k]) by {
      forall k | s1 <= k < s1 + n ensures IsSpace(text[k]) {
        AllSpaceAt(text, s1, s1 + n, k);
      }
    }
    assert tagged ==> forall k :: p + |Fence| <= k < s1 ==> text[k] == JsonTag[k - p - |Fence|];
    s1 + n
  }

  /** The match of the fence regex in `text`, if there is one. */
  function FenceMatch(text: string): (m: Option<FenceSpan>)
    ensures m.Some? ==> IsFenceMatch(text, m.value.open, m.value.tagged, m.value.groupStart, m.value.groupEnd)
    // leftmost: no opening fence before the chosen one
    ensures m.Some? ==> forall i :: 0 <= i < m.value.open ==> !OccursAt(text, Fence, i)
    // the optional tag is taken whenever it is there
    ensures m.Some? ==> m.value.tagged == OccursAt(text, JsonTag, m.value.open + |Fence|)
    // `\s*` is greedy: the group does not start with white space
    ensures m.Some? ==> m.value.groupStart == |text| || !IsSpace(text[m.value.groupStart])
    // the group is lazy: it ends at the first closing fence
    ensures m.Some? ==> forall i :: m.value.groupStart <= i < m.value.groupEnd ==> !OccursAt(text, Fence, i)
  {
    match IndexOf(text, Fence)
    case None => None
    case Some(p) =>
      var s2 := GroupStart(text, p);
      match IndexFrom(text, Fence, s2)
      case None => None
      case Some(q) => Some(FenceSpan(p, OccursAt(text, JsonTag, p + |Fence|), s2, q))
  }

  /** The regex matches whenever some structural match exists: backtracking never finds one the model misses. */
  lemma FenceMatchComplete(text: string, p: nat, tagged: bool, s2: nat, q: nat)
    requires IsFenceMatch(text, p, tagged, s2, q)
    ensures FenceMatch(text).Some?
  {
    var first := IndexOf(text, Fence);
    assert first.Some?;
    var start := GroupStart(text, first.value);
    assert text[q..q + |Fence|][0] == '`';
    assert q >= start;
    assert IndexFrom(text, Fence, start).Some?;
  }

  /** The regex fails exactly when no opening fence is followed by a second fence at least three characters later. */
  lemma FenceMatchNoneIff(text: string)
    ensures FenceMatch(text).None? <==>
      forall i: nat, j: nat :: OccursAt(text, Fence, i) && OccursAt(text, Fence, j) ==> j < i + |Fence|
  {
    if FenceMatch(text).None? {
      forall i: nat, j: nat | OccursAt(text, Fence, i) && OccursAt(text, Fence, j) && j >= i + |Fence|
        ensures false
      {
        assert text[i + |Fence|..i + |Fence|] == [];
        FenceMatchComplete(text, i, false, i + |Fence|, j);
      }
    }
  }

  /** The captured group `codeBlockMatch[1]`. */
  function FenceGroup(text: string): (g: Option<string>)
    ensures g.Some? <==> FenceMatch(text).Some?
    ensures g.Some? ==> g.value == text[FenceMatch(text).value.groupStart..FenceMatch(text).value.groupEnd]
  {
    match FenceMatch(text)
    case None => None
    case Some(m) => Some(text[m.groupStart..m.groupEnd])
  }

  /** Stage two: the trimmed group when the fence regex matches, the text unchanged otherwise. */
  function FencedCandidate(text: string): (c: string)
    ensures FenceMatch(text).None? ==> c == text
    ensures FenceMatch(text).Some? ==> c == Trim(FenceGroup(text).value)
  {
    match FenceGroup(text)
    case None => text
    case Some(g) => Trim(g)
  }

  /** A fence cannot start where there is no backtick. */
  lemma NoTickNoFence(text: string, from: nat, to: nat)
    requires forall k :: from <= k < to && k < |text| ==> text[k] != '`'
    ensures forall i :: from <= i < to ==> !OccursAt(text, Fence, i)
  {
    forall i | from <= i < to ensures !OccursAt(text, Fence, i) {
      if i + |Fence| <= |text| {
        assert text[i..i + |Fence|][0] == text[i];
      }
    }
  }

  /** The opening of a ```json reply: where the first fence is and where its group starts. */
  lemma OpeningOfReply(pre: string, ws: string, rest: string)
    requires forall k :: 0 <= k < |pre| ==> pre[k] != '`'
    requires AllSpace(ws) && rest != [] && !IsSpace(rest[0])
    ensures var text := pre + Fence + JsonTag + ws + rest;
      var s2 := |pre| + |Fence| + |JsonTag| + |ws|;
      IndexOf(text, Fence) == Some(|pre|) && GroupStart(text, |pre|) == s2 && text[s2..] == rest
  {
    var text := pre + Fence + JsonTag + ws + rest;
    var open := |pre|;
    var s1 := open + |Fence| + |JsonTag|;
    assert forall k :: 0 <= k < open ==> text[k] == pre[k];
    NoTickNoFence(text, 0, open);
    assert text[open..open + |Fence|] == Fence;
    IndexFromAt(text, Fence, 0, open);
    assert text[open + |Fence|..s1] == JsonTag;
    assert forall k :: 0 <= k < |ws| ==> text[s1..][k] == ws[k];
    assert text[s1..][|ws|] == rest[0];
    LeadingSpacesExact(text[s1..], |ws|);
    assert text[s1 + |ws|..] == rest;
  }

  /** The lazy group ends at the closing fence when no backtick comes before it. */
  lemma ClosingOfGroup(text: string, s2: nat, mid: string, post: string)
    requires s2 <= |text| && text[s2..] == mid + Fence + post
    requires forall k :: 0 <= k < |mid| ==> mid[k] != '`'
    ensures IndexFrom(text, Fence, s2) == Some(s2 + |mid|)
    ensures text[s2..s2 + |mid|] == mid
  {
    var close := s2 + |mid|;
    assert forall k :: s2 <= k < close ==> text[k] == text[s2..][k - s2];
    NoTickNoFence(text, s2, close);
    assert text[close..close + |Fence|] == text[s2..][|mid|..|mid| + |Fence|];
    IndexFromAt(text, Fence, s2, close);
    assert text[s2..close] == text[s2..][..|mid|];
  }

  lemma FencedCandidateOf(text: string, open: nat, s2: nat, mid: string)
    requires IndexOf(text, Fence) == Some(open) && GroupStart(text, open) == s2
    requires IndexFrom(text, Fence, s2) == Some(s2 + |mid|) && text[s2..s2 + |mid|] == mid
    ensures FencedCandidate(text) == Trim(mid)
  {
    assert FenceMatch(text) == Some(FenceSpan(open, OccursAt(text, JsonTag, open + |Fence|), s2, s2 + |mid|));
    assert FenceGroup(text) == Some(mid);
  }

  /** A reply that wraps a trimmed body in a ```json fence, with no backtick before it or inside it, yields that body at stage two. */
  lemma FencedReplyYieldsBody(pre: string, ws: string, body: string, ws2: string, post: string)
    requires forall k :: 0 <= k < |pre| ==> pre[k] != '`'
    requires AllSpace(ws) && AllSpace(ws2) && IsTrimmed(body) && body != []
    requires forall k :: 0 <= k < |body| ==> body[k] != '`'
    ensures FencedCandidate(pre + Fence + JsonTag + ws + body + ws2 + Fence + post) == body
  {
    var text := pre + Fence + JsonTag + ws + body + ws2 + Fence + post;
    var rest := body + ws2 + Fence + post;
    assert text == pre + Fence + JsonTag + ws + rest;
    OpeningOfReply(pre, ws, rest);
    var s2 := |pre| + |Fence| + |JsonTag| + |ws|;
    var mid := body + ws2;
    assert forall k :: 0 <= k < |mid| ==> mid[k] != '`' by {
      forall k | 0 <= k < |mid| ensures mid[k] != '`' {
        if k >= |body| {
          AllSpaceAt(ws2, 0, |ws2|, k - |body|);
          assert ws2[0..|ws2|] == ws2;
        }
      }
    }
    ClosingOfGroup(text, s2, mid, post);
    FencedCandidateOf(text, |pre|, s2, mid);
    TrimOfRightPadded(body, ws2);
  }

  // ---------------------------------------------------------------------------
  // The brace regex /\{[\s\S]*\}/
  // ---------------------------------------------------------------------------

  /**
   * Stage three: the span from the first `{` to the last `}`, when that `}`
   * comes after the `{`. The regex starts at the leftmost `{` and its greedy
   * middle runs to the last `}`.
   */
  function BraceSpan(s: string): (r: Option<string>)
    ensures r.Some? ==> (exists i, j :: 0 <= i < j < |s| && r.value == s[i..j + 1]
                                     && s[i] == '{' && s[j] == '}'
                                     && (forall k :: 0 <= k < i ==> s[k] != '{')
                                     && (forall k :: j < k < |s| ==> s[k] != '}'))
  {
    match IndexOf(s, "{")
    case None => None
    case Some(i) =>
      match LastIndexOf(s, '}')
      case None => None
      case Some(j) =>
        if j > i then
          assert s[i..i + 1][0] == '{';
          assert forall k :: 0 <= k < i ==> s[k] != '{' by {
            forall k | 0 <= k < i ensures s[k] != '{' {
              assert !OccursAt(s, "{", k);
              assert s[k..k + 1] == [s[k]];
            }
          }
          Some(s[i..j + 1])
        else None
  }

  /** There is a span exactly when some `{` is followed, anywhere later, by a `}`. */
  lemma BraceSpanSomeIff(s: string)
    ensures BraceSpan(s).Some? <==> exists i, j :: 0 <= i < j < |s| && s[i] == '{' && s[j] == '}'
  {
    if exists i, j :: 0 <= i < j < |s| && s[i] == '{' && s[j] == '}' {
      var i, j :| 0 <= i < j < |s| && s[i] == '{' && s[j] == '}';
      assert s[i..i + 1] == "{";
      assert OccursAt(s, "{", i);
      var first := IndexOf(s, "{");
      assert first.Some? && first.value <= i;
      var last := LastIndexOf(s, '}');
      assert last.Some? && last.value >= j;
    }
  }

  // ---------------------------------------------------------------------------
  // The ladder
  // ---------------------------------------------------------------------------

  datatype Purpose = Extraction | Comparison

  /** A `console.error` call: its heading and the excerpt of the reply it prints. */
  datatype LogLine = LogLine(heading: string, excerpt: string)

  /**
   * The outcome of the ladder: the value or what was thrown, every candidate
   * handed to `parse` in order, and the line logged on the way.
   */
  datatype Ladder<J> = Ladder(result: Result<J, Thrown>, tried: seq<string>, log: Option<LogLine>)

  function FailureMessage(purpose: Purpose): string {
    match purpose
    case Extraction => "Failed to parse Claude response as JSON"
    case Comparison => "Failed to parse Claude comparison response as JSON"
  }

  function ParseFailureLabel(purpose: Purpose): string {
    match purpose
    case Extraction => "Failed to parse Claude response:"
    case Comparison => "Failed to parse comparison response:"
  }

  const NoJsonLabel: string := "No JSON found in Claude response:"

  /** The number of reply characters a log line shows. */
  const LogExcerptLength: nat := 500

  /**
   * The last stage, after the raw reply and the stage-two candidate `fenced`
   * both failed to parse: the brace span of `fenced`, if there is one, is
   * parsed; otherwise the ladder throws, logging as described at `Recover`.
   */
  function FromBraces<J>(raw: string, fenced: string, parse: string -> Option<J>, purpose: Purpose): (o: Ladder<J>)
    ensures |o.tried| == 2 || |o.tried| == 3
    ensures o.tried[0] == raw && o.tried[1] == fenced
    ensures |o.tried| == 3 <==> BraceSpan(fenced).Some?
    ensures |o.tried| == 3 ==> BraceSpan(fenced) == Some(o.tried[2])
    ensures o.result.Success? ==> |o.tried| == 3 && parse(o.tried[2]) == Some(o.result.value) && o.log.None?
    ensures o.result.Failure? ==> o.result.error == ErrorInstance(FailureMessage(purpose))
    ensures o.result.Failure? && |o.tried| == 3 ==>
      parse(o.tried[2]).None? && o.log == Some(LogLine(ParseFailureLabel(purpose), Take(raw, LogExcerptLength)))
    ensures o.result.Failure? && |o.tried| == 2 ==>
      o.log == (if purpose == Extraction then Some(LogLine(NoJsonLabel, Take(raw, LogExcerptLength))) else None)
  {
    var fail := Failure(ErrorInstance(FailureMessage(purpose)));
    match BraceSpan(fenced)
    case None =>
      var log := if purpose == Extraction then Some(LogLine(NoJsonLabel, Take(raw, LogExcerptLength))) else None;
      Ladder(fail, [raw, fenced], log)
    case Some(span) =>
      match parse(span)
      case Some(v) => Ladder(Success(v), [raw, fenced, span], None)
      case None => Ladder(fail, [raw, fenced, span], Some(LogLine(ParseFailureLabel(purpose), Take(raw, LogExcerptLength))))
  }

  /**
   * What a run of the ladder `o` satisfies for the stage-two candidate
   * `fenced`: it starts with the raw reply, tries at most three candidates,
   * the second being `fenced` and the third its brace span; it succeeds with
   * the parse of the last candidate tried after all earlier ones failed, or
   * throws the ladder's error after all of them failed; and success logs nothing.
   * Alone it does not say that the ladder goes on to the next candidate
   * whenever one fails to parse: RawParsesFirst and BraceSpanOnlyAfterFence
   * state when Recover reaches each candidate.
   */
  ghost predicate Climbed<J>(o: Ladder<J>, raw: string, fenced: string, parse: string -> Option<J>, purpose: Purpose) {
    1 <= |o.tried| <= 3 && o.tried[0] == raw
    && (|o.tried| >= 2 ==> o.tried[1] == fenced)
    && (|o.tried| == 3 ==> BraceSpan(fenced) == Some(o.tried[2]))
    && (o.result.Success? ==>
          parse(o.tried[|o.tried| - 1]) == Some(o.result.value) && o.log.None?
          && forall i :: 0 <= i < |o.tried| - 1 ==> parse(o.tried[i]).None?)
    && (o.result.Failure? ==>
          o.result.error == ErrorInstance(FailureMessage(purpose))
          && forall i :: 0 <= i < |o.tried| ==> parse(o.tried[i]).None?)
  }

  /** The ladder for a given stage-two candidate `fenced`. */
  function Climb<J>(raw: string, fenced: string, parse: string -> Option<J>, purpose: Purpose): (o: Ladder<J>)
    ensures Climbed(o, raw, fenced, parse, purpose)
  {
    match parse(raw)
    case Some(v) => Ladder(Success(v), [raw], None)
    case None =>
      match parse(fenced)
      case Some(v) => Ladder(Success(v), [raw, fenced], None)
      case None => FromBraces(raw, fenced, parse, purpose)
  }

  /**
   * Parse the raw reply; failing that, the stage-two candidate; failing that,
   * the brace span of the stage-two candidate; failing that, throw. The
   * extraction ladder logs the first 500 characters of the reply on both
   * failure paths, the comparison ladder only when the brace span fails.
   */
  function Recover<J>(raw: string, parse: string -> Option<J>, purpose: Purpose): (o: Ladder<J>)
    ensures Climbed(o, raw, FencedCandidate(raw), parse, purpose)
  {
    Climb(raw, FencedCandidate(raw), parse, purpose)
  }

  /** A reply that parses as it stands is returned as parsed, and nothing else is tried. */
  lemma RawParsesFirst<J>(raw: string, parse: string -> Option<J>, purpose: Purpose)
    requires parse(raw).Some?
    ensures Recover(raw, parse, purpose) == Ladder(Success(parse(raw).value), [raw], None)
  {
  }

  /** The brace span is tried only after both earlier candidates failed, and only when there is one. */
  lemma BraceSpanOnlyAfterFence<J>(raw: string, parse: string -> Option<J>, purpose: Purpose)
    ensures |Recover(raw, parse, purpose).tried| == 3 <==>
      parse(raw).None? && parse(FencedCandidate(raw)).None? && BraceSpan(FencedCandidate(raw)).Some?
  {
  }

  /** The stage-two candidate is a piece of the reply. */
  lemma FencedCandidateIsSlice(raw: string)
    ensures IsSlice(FencedCandidate(raw), raw)
  {
    match FenceMatch(raw)
    case None =>
      assert raw == raw[0..|raw|];
    case Some(m) =>
      var g := raw[m.groupStart..m.groupEnd];
      TrimIsSlice(g);
      SliceOfSlice(Trim(g), g, raw);
  }

  lemma BraceSpanIsSlice(s: string)
    requires BraceSpan(s).Some?
    ensures IsSlice(BraceSpan(s).value, s)
  {
    var i, j :| 0 <= i < j < |s| && BraceSpan(s).value == s[i..j + 1];
  }

  lemma SpanCandidateIsSlice(raw: string)
    requires BraceSpan(FencedCandidate(raw)).Some?
    ensures IsSlice(BraceSpan(FencedCandidate(raw)).value, raw)
  {
    var fenced := FencedCandidate(raw);
    FencedCandidateIsSlice(raw);
    BraceSpanIsSlice(fenced);
    SliceOfSlice(BraceSpan(fenced).value, fenced, raw);
  }

  /** Whatever the stage-two candidate, the candidates tried are all pieces of the reply when it and its brace span are. */
  lemma ClimbSlices<J>(raw: string, fenced: string, parse: string -> Option<J>, purpose: Purpose)
    requires IsSlice(fenced, raw)
    requires BraceSpan(fenced).Some? ==> IsSlice(BraceSpan(fenced).value, raw)
    ensures var o := Climb(raw, fenced, parse, purpose);
      forall i :: 0 <= i < |o.tried| ==> IsSlice(o.tried[i], raw)
  {
    var o := Climb(raw, fenced, parse, purpose);
    assert raw == raw[0..|raw|];
    forall i | 0 <= i < |o.tried| ensures IsSlice(o.tried[i], raw) {
      if i == 2 {
        assert BraceSpan(fenced) == Some(o.tried[2]);
      }
    }
  }

  /** Every candidate handed to `parse` is a contiguous piece of the reply: the ladder never adds characters. */
  lemma CandidatesAreSlices<J>(raw: string, parse: string -> Option<J>, purpose: Purpose)
    ensures var o := Recover(raw, parse, purpose);
      forall i :: 0 <= i < |o.tried| ==> IsSlice(o.tried[i], raw)
  {
    var fenced := FencedCandidate(raw);
    FencedCandidateIsSlice(raw);
    if BraceSpan(fenced).Some? {
      SpanCandidateIsSlice(raw);
    }
    ClimbSlices(raw, fenced, parse, purpose);
  }

  /** The logging of `Climb`, whatever the stage-two candidate. */
  lemma ClimbLogging<J>(raw: string, fenced: string, parse: string -> Option<J>, purpose: Purpose)
    ensures var o := Climb(raw, fenced, parse, purpose);
      o.result.Failure? ==>
        (purpose == Extraction ==> o.log.Some? && o.log.value.excerpt == Take(raw, LogExcerptLength))
        && (purpose == Comparison ==> (o.log.Some? <==> |o.tried| == 3))
        && (o.log.Some? ==> |o.log.value.excerpt| <= LogExcerptLength && StartsWith(raw, o.log.value.excerpt))
  {
    var o := Climb(raw, fenced, parse, purpose);
    if o.result.Failure? {
      assert o == FromBraces(raw, fenced, parse, purpose);
    }
  }

  /**
   * Logging on failure: the extraction ladder logs the first 500 characters of
   * the reply on both failure paths; the comparison ladder logs only when the
   * brace span fails to parse. Nothing is logged on success.
   */
  lemma FailureLogging<J>(raw: string, parse: string -> Option<J>, purpose: Purpose)
    ensures var o := Recover(raw, parse, purpose);
      o.result.Failure? ==>
        (purpose == Extraction ==> o.log.Some? && o.log.value.excerpt == Take(raw, LogExcerptLength))
        && (purpose == Comparison ==> (o.log.Some? <==> |o.tried| == 3))
        && (o.log.Some? ==> |o.log.value.excerpt| <= LogExcerptLength && StartsWith(raw, o.log.value.excerpt))
  {
    ClimbLogging(raw, FencedCandidate(raw), parse, purpose);
  }

  // ---------------------------------------------------------------------------
  // The reply as a whole
  // ---------------------------------------------------------------------------

  /** A block of a model reply: text, or any other kind (tool use, thinking, ...). */
  datatype ContentBlock = TextBlock(text: string) | OtherBlock(kind: string)

  const UnexpectedTypeMessage: string := "Unexpected response type from Claude"

  /** What reading `.type` of the missing first block of an empty reply throws. */
  const MissingBlockMessage: string := "Cannot read properties of undefined (reading 'type')"

  /**
   * From the model call to the parsed value: a failed call propagates; the
   * first block must be text, and its text goes through the ladder.
   */
  function HandleReply<J>(call: Result<seq<ContentBlock>, Thrown>, parse: string -> Option<J>, purpose: Purpose): (o: Ladder<J>)
    ensures call.Failure? ==> o == Ladder(Failure(call.error), [], None)
    ensures call.Success? && call.value == [] ==> o.result == Failure(ErrorInstance(MissingBlockMessage)) && o.tried == []
    ensures call.Success? && call.value != [] && !call.value[0].TextBlock? ==>
      o.result == Failure(ErrorInstance(UnexpectedTypeMessage)) && o.tried == []
    ensures call.Success? && call.value != [] && call.value[0].TextBlock? ==>
      o == Recover(call.value[0].text, parse, purpose)
  {
    match call
    case Failure(e) => Ladder(Failure(e), [], None)
    case Success(blocks) =>
      if blocks == [] then Ladder(Failure(ErrorInstance(MissingBlockMessage)), [], None)
      else match blocks[0]
        case OtherBlock(_) => Ladder(Failure(ErrorInstance(UnexpectedTypeMessage)), [], None)
        case TextBlock(t) => Recover(t, parse, purpose)
  }

  // ---------------------------------------------------------------------------
  // Prompt assembly conditions
  // ---------------------------------------------------------------------------

  const SpecificationHeading: string := "TEKNISK BESKRIVNING/FÖRESKRIFTER:\n"

  /** The specification block of the comparison prompt: present exactly when the text is truthy. */
  function SpecificationBlock(specificationText: Value): (r: string)
    ensures r != "" <==> Truthy(specificationText)
    ensures Truthy(specificationText) ==>
      StartsWith(r, SpecificationHeading) && Contains(r, ToJsString(specificationText))
  {
    if Truthy(specificationText) then
      var r := SpecificationHeading + ToJsString(specificationText) + "\n";
      assert OccursAt(r, ToJsString(specificationText), |SpecificationHeading|);
      r
    else ""
  }

  const CountLabel: string := "- Antal offerter att jämföra: "

  /**
   * The context lines and specification block of the comparison prompt: the
   * count line states how many quotes are sent, and the prompt ends with the
   * specification block, which is empty unless the text is truthy.
   */
  function ComparisonContext(projectName: string, categoryName: string, quotes: seq<Value>, specificationText: Value): (r: string)
    ensures exists head :: r == head + CountLabel + NatToString(|quotes|) + "\n\n" + SpecificationBlock(specificationText)
    ensures !Truthy(specificationText) ==> EndsWith(r, NatToString(|quotes|) + "\n\n")
  {
    var head := "KONTEXT:\n- Projekt: " + projectName + "\n- Kategori: " + categoryName + "\n";
    var r := head + CountLabel + NatToString(|quotes|) + "\n\n" + SpecificationBlock(specificationText);
    assert !Truthy(specificationText) ==> r[|r| - |NatToString(|quotes|) + "\n\n"|..] == NatToString(|quotes|) + "\n\n";
    r
  }
}
