/** Extracting a JSON value from a free-form model reply (`safeJsonParse` in
    src/services/api.js): a direct parse, else the first fenced code block, else the
    greedy span from the first `{` to the last `}`. `JSON.parse` itself is left
    uninterpreted: it is a parameter that either yields a value or fails with the
    message of the SyntaxError it would throw. */
module ReplyParsing {
  import opened Wrappers
  import opened Text
  import opened Json

  type Parser = string -> Result<Value, string>

  const Fence: string := "```"
  const JsonTag: string := "json"
  const ParseFailurePrefix: string := "Failed to parse Gemini response: "
  const NoJsonMessage: string := "No valid JSON found in response"

  /** First index at or after `i` that is not whitespace (or the end). */
  function SkipSpaces(s: string, i: nat): (r: nat)
    requires i <= |s|
    ensures i <= r <= |s|
    ensures forall k :: i <= k < r ==> IsSpace(s[k])
    ensures r == |s| || !IsSpace(s[r])
    decreases |s| - i
  {
    if i < |s| && IsSpace(s[i]) then SkipSpaces(s, i + 1) else i
  }

  /** Start of the whitespace run that ends at `hi`, not going below `lo`. */
  function TrimBackTo(s: string, lo: nat, hi: nat): (r: nat)
    requires lo <= hi <= |s|
    ensures lo <= r <= hi
    ensures forall k :: r <= k < hi ==> IsSpace(s[k])
    ensures r == lo || !IsSpace(s[r - 1])
    decreases hi - lo
  {
    if lo < hi && IsSpace(s[hi - 1]) then TrimBackTo(s, lo, hi - 1) else hi
  }

  /** `v` is a contiguous piece of `text`. */
  ghost predicate IsSliceOf(v: string, text: string) {
    exists p, e :: 0 <= p <= e <= |text| && text[p..e] == v
  }

  /** `v` neither starts nor ends with whitespace. */
  predicate Trimmed(v: string) {
    |v| > 0 ==> !IsSpace(v[0]) && !IsSpace(v[|v| - 1])
  }

  /** There are two fence markers, the second starting after the first ends. */
  ghost predicate HasFencePair(text: string) {
    exists i, j :: OccursAt(text, Fence, i) && OccursAt(text, Fence, j) && i + 3 <= j
  }

  /** `b` is where the opener at `i` and its optional `json` tag end: the tag is
      taken whenever it is there. */
  predicate TagAt(text: string, i: nat, b: nat) {
    || (b == i + 7 && OccursAt(text, JsonTag, i + 3))
    || (b == i + 3 && !OccursAt(text, JsonTag, i + 3))
  }

  /** How the regular expression matches: the opener at `i` is the first marker,
      its tag ends at `b`, whitespace runs from there to the capture start `p`,
      the closer at `q` is the first marker from `p` on, and the capture `[p, e)`
      stops at the whitespace run before it. */
  ghost predicate CaptureLayout(text: string, i: nat, b: nat, p: nat, e: nat, q: nat) {
    && OccursAt(text, Fence, i) && (forall j :: 0 <= j < i ==> !OccursAt(text, Fence, j))
    && TagAt(text, i, b)
    && b <= p <= e <= q && OccursAt(text, Fence, q)
    && (forall k :: b <= k < p ==> IsSpace(text[k]))
    && !IsSpace(text[p])
    && (forall j :: p <= j < q ==> !OccursAt(text, Fence, j))
    && (forall k :: e <= k < q ==> IsSpace(text[k]))
    && (e == p || !IsSpace(text[e - 1]))
  }

  /** The capture of /```(?:json)?\s*([\s\S]*?)\s*```/ on `text`: after the first
      fence marker, an optional `json` tag and leading whitespace are skipped, and
      the lazy capture stops at the whitespace run before the next fence marker.
      `FencedBlockIsCapture` and `FencedBlockAt` pin the result to the layout. */
  function FencedBlock(text: string): (r: Option<string>)
    ensures r.None? <==> !HasFencePair(text)
    ensures r.Some? ==> IsSliceOf(r.value, text)
    ensures r.Some? ==> !Contains(r.value, Fence)
    ensures r.Some? ==> Trimmed(r.value)
  {
    match FindFrom(text, Fence, 0)
    case None => None
    case Some(i) => CaptureAfter(text, i)
  }

  /** The capture once the first marker is known to start at `i`. */
  function CaptureAfter(text: string, i: nat): (r: Option<string>)
    requires OccursAt(text, Fence, i)
    requires forall j :: 0 <= j < i ==> !OccursAt(text, Fence, j)
    ensures r.None? <==> !HasFencePair(text)
    ensures r.Some? ==> IsSliceOf(r.value, text)
    ensures r.Some? ==> !Contains(r.value, Fence)
    ensures r.Some? ==> Trimmed(r.value)
  {
    var p := CaptureStart(text, i);
    match FindFrom(text, Fence, p)
    case None =>
      NoPairWithoutCloser(text, i, p);
      None
    case Some(q) =>
      var e := TrimBackTo(text, p, q);
      CaptureFacts(text, i, p, e, q);
      Some(text[p..e])
  }

  /** Where the opener at `i` and its optional tag end. */
  function TagEnd(text: string, i: nat): (b: nat)
    requires OccursAt(text, Fence, i)
    ensures TagAt(text, i, b) && b <= |text|
  {
    if OccursAt(text, JsonTag, i + 3) then i + 7 else i + 3
  }

  /** Where the capture starts: after the opening marker, the optional tag and
      the whitespace that follows. No marker starts in between. */
  function CaptureStart(text: string, i: nat): (p: nat)
    requires OccursAt(text, Fence, i)
    ensures TagEnd(text, i) <= p <= |text|
    ensures forall k :: TagEnd(text, i) <= k < p ==> IsSpace(text[k])
    ensures forall j :: i + 3 <= j < p ==> !OccursAt(text, Fence, j)
    ensures p == |text| || !IsSpace(text[p])
  {
    var b := TagEnd(text, i);
    var p := SkipSpaces(text, b);
    NoFenceInPrelude(text, i + 3, b, p);
    p
  }

  /** When no marker follows the opener, no two markers are far enough apart. */
  lemma NoPairWithoutCloser(text: string, i: nat, p: nat)
    requires OccursAt(text, Fence, i) && i + 3 <= p
    requires forall j :: 0 <= j < i ==> !OccursAt(text, Fence, j)
    requires forall j :: i + 3 <= j < p ==> !OccursAt(text, Fence, j)
    requires forall j :: p <= j ==> !OccursAt(text, Fence, j)
    ensures !HasFencePair(text)
  {
    forall i', j' | OccursAt(text, Fence, i') && i' + 3 <= j'
      ensures !OccursAt(text, Fence, j')
    {
      assert i <= i';
    }
  }

  /** Between the end of the opening marker and the capture start there are only
      the letters of the tag and whitespace, so no marker can start there. */
  lemma NoFenceInPrelude(text: string, a: nat, b: nat, p: nat)
    requires a <= b <= p <= |text|
    requires b == a + 4 ==> OccursAt(text, JsonTag, a)
    requires b == a || b == a + 4
    requires forall k :: b <= k < p ==> IsSpace(text[k])
    ensures forall j :: a <= j < p ==> !OccursAt(text, Fence, j)
  {
    forall j | a <= j < p
      ensures !OccursAt(text, Fence, j)
    {
      if j < b {
        assert text[a..a + 4][j - a] == text[j];
      }
      assert text[j] != '`';
      if j + 3 <= |text| {
        assert text[j..j + 3][0] == text[j];
      }
    }
  }

  /** What the capture `[p, e)` between the opener at `i` and the closer at `q`
      satisfies. */
  lemma CaptureFacts(text: string, i: nat, p: nat, e: nat, q: nat)
    requires i + 3 <= p <= e <= q && OccursAt(text, Fence, i) && OccursAt(text, Fence, q)
    requires forall j :: p <= j < q ==> !OccursAt(text, Fence, j)
    requires p == |text| || !IsSpace(text[p])
    requires e == p || !IsSpace(text[e - 1])
    ensures HasFencePair(text)
    ensures IsSliceOf(text[p..e], text)
    ensures !Contains(text[p..e], Fence)
    ensures Trimmed(text[p..e])
  {
    NoFenceInside(text, p, e, q);
    var c := text[p..e];
    if |c| > 0 {
      assert c[0] == text[p] && c[|c| - 1] == text[e - 1];
    }
  }

  /** The capture ends no later than the first marker after its start, so it
      contains no marker. */
  lemma NoFenceInside(text: string, p: nat, e: nat, q: nat)
    requires p <= e <= q <= |text|
    requires forall j :: p <= j < q ==> !OccursAt(text, Fence, j)
    ensures !Contains(text[p..e], Fence)
  {
    var c := text[p..e];
    forall j
      ensures !OccursAt(c, Fence, j)
    {
      if 0 <= j && j + 3 <= |c| {
        assert c[j] == text[p + j] && c[j + 1] == text[p + j + 1] && c[j + 2] == text[p + j + 2];
        assert c[j..j + 3] == text[p + j..p + j + 3];
        assert !OccursAt(text, Fence, p + j);
      }
    }
    ContainsIff(c, Fence);
  }

  /** Last index below `hi` holding `c`. */
  function LastIndexOf(s: string, c: char, hi: nat): (r: Option<nat>)
    requires hi <= |s|
    ensures r.Some? ==> r.value < hi && s[r.value] == c
    ensures r.Some? ==> forall k :: r.value < k < hi ==> s[k] != c
    ensures r.None? ==> forall k :: 0 <= k < hi ==> s[k] != c
  {
    if hi == 0 then None
    else if s[hi - 1] == c then Some(hi - 1)
    else LastIndexOf(s, c, hi - 1)
  }

  /** `span` sits at `i` in `text` with no `{` before it and no `}` after it. */
  ghost predicate GreedySpanAt(text: string, span: string, i: int) {
    && 0 <= i && i + |span| <= |text| && text[i..i + |span|] == span
    && (forall k :: 0 <= k < i ==> text[k] != '{')
    && (forall k :: i + |span| <= k < |text| ==> text[k] != '}')
  }

  /** The match of /\{[\s\S]*\}/ on `text`: from the first `{` to the last `}`
      that follows it. */
  function BraceSpan(text: string): (r: Option<string>)
    ensures r.Some? <==> exists i, j :: 0 <= i < j < |text| && text[i] == '{' && text[j] == '}'
    ensures r.Some? ==> exists i :: GreedySpanAt(text, r.value, i)
    ensures r.Some? ==> |r.value| >= 2 && r.value[0] == '{' && r.value[|r.value| - 1] == '}'
  {
    match FirstIndexOf(text, '{', 0)
    case None => None
    case Some(i) =>
      match LastIndexOf(text, '}', |text|)
      case None => None
      case Some(j) =>
        if i < j then
          var span := text[i..j + 1];
          assert GreedySpanAt(text, span, i);
          Some(span)
        else
          assert forall i', j' :: 0 <= i' < j' < |text| && text[i'] == '{' ==> text[j'] != '}' by {
            forall i', j' | 0 <= i' < j' < |text| && text[i'] == '{'
              ensures text[j'] != '}'
            {
              assert i <= i';
            }
          }
          None
  }

  /** `safeJsonParse`: the three strategies in order. A fenced block, once found,
      is the only thing tried after the direct parse; every failure is reported
      with the "Failed to parse" prefix. */
  function SafeJsonParse(text: string, parse: Parser): (r: Result<Value, string>)
    ensures parse(text).Ok? ==> r == parse(text)
    ensures r.Ok? ==> exists i, j :: 0 <= i <= j <= |text| && parse(text[i..j]) == r
    ensures r.Err? ==> |r.error| >= |ParseFailurePrefix| && r.error[..|ParseFailurePrefix|] == ParseFailurePrefix
  {
    assert text[0..|text|] == text;
    match parse(text)
    case Ok(v) => Ok(v)
    case Err(_) =>
      match FencedBlock(text)
      case Some(block) =>
        (match parse(block)
         case Ok(v) => Ok(v)
         case Err(m) => Err(ParseFailurePrefix + m))
      case None =>
        match BraceSpan(text)
        case Some(span) =>
          (match parse(span)
           case Ok(v) => Ok(v)
           case Err(m) => Err(ParseFailurePrefix + m))
        case None => Err(ParseFailurePrefix + NoJsonMessage)
  }

  /** Every parse failure counts as retryable: its message contains "Failed to parse". */
  lemma ParseFailureMentionsParse(text: string, parse: Parser)
    requires SafeJsonParse(text, parse).Err?
    ensures Contains(SafeJsonParse(text, parse).error, "Failed to parse")
  {
    var m := SafeJsonParse(text, parse).error;
    assert m == "Failed to parse" + m[15..] by {
      assert m[..15] == ParseFailurePrefix[..15];
    }
    PrefixContains("Failed to parse", m[15..]);
  }

  /** Characterisations used to compute the extractors on composed strings. */
  lemma SkipSpacesAt(s: string, i: nat, j: nat)
    requires i <= j <= |s|
    requires forall k :: i <= k < j ==> IsSpace(s[k])
    requires j == |s| || !IsSpace(s[j])
    ensures SkipSpaces(s, i) == j
    decreases j - i
  {
    if i < j {
      SkipSpacesAt(s, i + 1, j);
    }
  }

  lemma TrimBackToAt(s: string, lo: nat, hi: nat, r: nat)
    requires lo <= r <= hi <= |s|
    requires forall k :: r <= k < hi ==> IsSpace(s[k])
    requires r == lo || !IsSpace(s[r - 1])
    ensures TrimBackTo(s, lo, hi) == r
    decreases hi - r
  {
    if r < hi {
      TrimBackToAt(s, lo, hi - 1, r);
    }
  }

  lemma FindFromAt(s: string, t: string, from: nat, q: nat)
    requires from <= q && OccursAt(s, t, q)
    requires forall j :: from <= j < q ==> !OccursAt(s, t, j)
    ensures FindFrom(s, t, from) == Some(q)
  {
    var r := FindFrom(s, t, from);
    assert r.Some?;
    assert !(r.value < q) && !(q < r.value);
  }

  ghost predicate AllSpace(s: string) {
    forall k :: 0 <= k < |s| ==> IsSpace(s[k])
  }

  /** A block found is the capture of a layout. */
  lemma FencedBlockIsCapture(text: string)
    ensures FencedBlock(text).Some? ==>
              exists i: nat, b: nat, p: nat, e: nat, q: nat ::
                CaptureLayout(text, i, b, p, e, q) && FencedBlock(text).value == text[p..e]
  {
    if FencedBlock(text).Some? {
      var i := FindFrom(text, Fence, 0).value;
      var p := CaptureStart(text, i);
      var q := FindFrom(text, Fence, p).value;
      var e := TrimBackTo(text, p, q);
      assert CaptureLayout(text, i, TagEnd(text, i), p, e, q);
    }
  }

  /** The extractor's result read off a layout: whatever the layout's capture
      is, that is the block. */
  lemma FencedBlockAt(text: string, i: nat, b: nat, p: nat, e: nat, q: nat)
    requires CaptureLayout(text, i, b, p, e, q)
    ensures FencedBlock(text) == Some(text[p..e])
  {
    FindFromAt(text, Fence, 0, i);
    CaptureAfterAt(text, i, b, p, e, q);
  }

  /** After the opener of a layout, the capture is `[p, e)`. */
  lemma CaptureAfterAt(text: string, i: nat, b: nat, p: nat, e: nat, q: nat)
    requires CaptureLayout(text, i, b, p, e, q)
    ensures CaptureAfter(text, i) == Some(text[p..e])
  {
    CaptureStartAt(text, i, b, p, e, q);
    FindFromAt(text, Fence, p, q);
    TrimBackToAt(text, p, q, e);
  }

  lemma CaptureStartAt(text: string, i: nat, b: nat, p: nat, e: nat, q: nat)
    requires CaptureLayout(text, i, b, p, e, q)
    ensures CaptureStart(text, i) == p
  {
    assert TagEnd(text, i) == b;
    SkipSpacesAt(text, b, p);
  }

  /** No marker starts where there is no backtick. */
  lemma NoFenceWithoutBacktick(text: string, lo: nat, hi: nat)
    requires hi <= |text| && forall k :: lo <= k < hi ==> text[k] != '`'
    ensures forall j :: lo <= j < hi ==> !OccursAt(text, Fence, j)
  {
    forall j | lo <= j < hi && j + 3 <= |text|
      ensures !OccursAt(text, Fence, j)
    {
      assert text[j..j + 3][0] == text[j];
    }
  }

  /** `s` begins with the `json` tag. */
  predicate StartsWithTag(s: string) {
    |s| >= 4 && s[..4] == JsonTag
  }

  /** The tag written after the opener: `json`, or none, in which case the body
      must not itself begin with `json` (the optional group would take it). */
  predicate TagFits(tag: string, body: string) {
    tag == JsonTag || (tag == "" && !StartsWithTag(body))
  }

  /** Wrapping a value's text in a fence, tagged `json` or untagged, with any
      prose before it that has no backtick, is undone by the extractor. Untagged,
      the text must not start right after the opener with `json`. */
  lemma FencedBlockOfWrapped(pre: string, tag: string, ws1: string, c: string, ws2: string, post: string)
    requires '`' !in pre && '`' !in c
    requires AllSpace(ws1) && AllSpace(ws2)
    requires |c| > 0 ==> !IsSpace(c[0]) && !IsSpace(c[|c| - 1])
    requires tag == JsonTag || (tag == "" && (|ws1| > 0 || !StartsWithTag(c)))
    ensures FencedBlock(pre + Fence + tag + ws1 + c + ws2 + Fence + post) == Some(c)
  {
    var body := ws1 + c + ws2;
    assert pre + Fence + tag + ws1 + c + ws2 + Fence + post == pre + Fence + tag + body + Fence + post;
    var p, e := PaddedShape(ws1, c, ws2);
    if tag == "" {
      UntaggedBodyFits(ws1, c, ws2);
    }
    FencedBlockOfBody(pre, tag, body, post, p, e);
  }

  /** `c` between whitespace is a body whose capture is `c`. */
  lemma PaddedShape(ws1: string, c: string, ws2: string) returns (p: nat, e: nat)
    requires '`' !in c && AllSpace(ws1) && AllSpace(ws2)
    requires |c| > 0 ==> !IsSpace(c[0]) && !IsSpace(c[|c| - 1])
    ensures BodyShape(ws1 + c + ws2, p, e) && (ws1 + c + ws2)[p..e] == c
  {
    var body := ws1 + c + ws2;
    assert body[..|ws1|] == ws1 && body[|ws1|..|ws1| + |c|] == c && body[|ws1| + |c|..] == ws2;
    assert '`' !in body by {
      forall k | 0 <= k < |body| ensures body[k] != '`' {
        if k < |ws1| {
          assert body[k] == ws1[k];
        } else if k < |ws1| + |c| {
          assert body[k] == c[k - |ws1|];
        } else {
          assert body[k] == ws2[k - |ws1| - |c|];
        }
      }
    }
    if |c| > 0 {
      p, e := |ws1|, |ws1| + |c|;
      assert forall k | 0 <= k < p :: body[k] == ws1[k];
      assert forall k | e <= k < |body| :: body[k] == ws2[k - e];
      assert body[p] == c[0] && body[e - 1] == c[|c| - 1];
    } else {
      p, e := |body|, |body|;
      assert forall k | 0 <= k < |body| :: body[k] == if k < |ws1| then ws1[k] else ws2[k - |ws1|];
    }
  }

  /** An untagged body that starts with whitespace, or whose text does not start
      with `json`, does not start with `json`: no letter of the tag is whitespace. */
  lemma UntaggedBodyFits(ws1: string, c: string, ws2: string)
    requires AllSpace(ws1) && AllSpace(ws2)
    requires |ws1| > 0 || !StartsWithTag(c)
    ensures !StartsWithTag(ws1 + c + ws2)
  {
    var body := ws1 + c + ws2;
    if |body| >= 4 {
      if |ws1| > 0 {
        assert body[..4][0] == ws1[0];
      } else if |c| >= 4 {
        assert body[..4] == c[..4];
      } else {
        assert body[..4][|c|] == ws2[0];
      }
    }
  }

  /** The extractor on a fence around `body`, read off offsets into the body:
      whitespace up to `p`, the capture up to `e`, whitespace after. */
  lemma FencedBlockOfBody(pre: string, tag: string, body: string, post: string, p: nat, e: nat)
    requires '`' !in pre && BodyShape(body, p, e) && TagFits(tag, body)
    ensures FencedBlock(pre + Fence + tag + body + Fence + post) == Some(body[p..e])
  {
    WrappedLayout(pre, tag, body, post);
    BodyBlock(pre + Fence + tag + body + Fence + post, pre, tag, body, p, e);
  }

  /** A body with no backtick: whitespace up to `p`, a capture `[p, e)` that
      neither starts nor ends with whitespace, whitespace after `e`. */
  predicate BodyShape(body: string, p: nat, e: nat) {
    && '`' !in body
    && p <= e <= |body|
    && (forall k :: 0 <= k < p ==> IsSpace(body[k]))
    && (p == |body| || !IsSpace(body[p]))
    && (forall k :: e <= k < |body| ==> IsSpace(body[k]))
    && (e == p || !IsSpace(body[e - 1]))
  }

  lemma BodyBlock(text: string, pre: string, tag: string, body: string, p: nat, e: nat)
    requires Wrapped(text, pre, tag, body)
    requires '`' !in pre && BodyShape(body, p, e) && TagFits(tag, body)
    ensures FencedBlock(text) == Some(body[p..e])
  {
    var b := |pre| + 3 + |tag|;
    BodyLayout(text, pre, tag, body, p, e);
    FencedBlockFromLayout(text, |pre|, b, b + p, b + e, b + |body|, body[p..e]);
  }

  lemma FencedBlockFromLayout(text: string, i: nat, b: nat, p: nat, e: nat, q: nat, v: string)
    requires CaptureLayout(text, i, b, p, e, q) && text[p..e] == v
    ensures FencedBlock(text) == Some(v)
  {
    FencedBlockAt(text, i, b, p, e, q);
  }

  /** The layout of a fence around `body`. */
  lemma BodyLayout(text: string, pre: string, tag: string, body: string, p: nat, e: nat)
    requires Wrapped(text, pre, tag, body)
    requires '`' !in pre && BodyShape(body, p, e) && TagFits(tag, body)
    ensures var b := |pre| + 3 + |tag|;
            CaptureLayout(text, |pre|, b, b + p, b + e, b + |body|)
    ensures var b := |pre| + 3 + |tag|;
            text[b + p..b + e] == body[p..e]
  {
    var i := |pre|;
    var b := i + 3 + |tag|;
    var q := b + |body|;
    PreludeNoFence(text, pre);
    TagLayout(text, i, tag, body, q);
    BodyInLayout(text, i, b, body, p, e, q);
  }

  /** No marker starts in prose without a backtick. */
  lemma PreludeNoFence(text: string, pre: string)
    requires '`' !in pre && |pre| <= |text| && text[..|pre|] == pre
    ensures forall j :: 0 <= j < |pre| ==> !OccursAt(text, Fence, j)
  {
    forall k | 0 <= k < |pre| ensures text[k] != '`' {
      assert text[k] == text[..|pre|][k];
    }
    NoFenceWithoutBacktick(text, 0, |pre|);
  }

  /** A body of the right shape between the tag end `b` and the closer at `q`
      completes the layout. */
  lemma BodyInLayout(text: string, i: nat, b: nat, body: string, p: nat, e: nat, q: nat)
    requires OccursAt(text, Fence, i) && (forall j :: 0 <= j < i ==> !OccursAt(text, Fence, j))
    requires TagAt(text, i, b)
    requires b + |body| == q && OccursAt(text, Fence, q) && text[b..q] == body
    requires BodyShape(body, p, e)
    ensures CaptureLayout(text, i, b, b + p, b + e, q)
    ensures text[b + p..b + e] == body[p..e]
  {
    forall k | b <= k < q ensures text[k] == body[k - b] {
      assert text[k] == text[b..q][k - b];
    }
    NoFenceWithoutBacktick(text, b + p, q);
    assert text[b + p..b + e] == body[p..e];
    if p == |body| {
      assert text[q] == text[q..q + 3][0];
    }
  }

  /** The tag, if any, is read as the tag and nothing else is. */
  lemma TagLayout(text: string, i: nat, tag: string, body: string, q: nat)
    requires tag == JsonTag || tag == ""
    requires i + 3 + |tag| + |body| == q && q + 3 <= |text|
    requires text[i + 3..i + 3 + |tag|] == tag && text[i + 3 + |tag|..q] == body
    requires OccursAt(text, Fence, q) && TagFits(tag, body)
    ensures TagAt(text, i, i + 3 + |tag|)
  {
    if tag == "" {
      UntaggedNotTag(text, i + 3, body, q);
    }
  }

  /** A body that does not start with `json`, followed by a marker, is not read
      as a tag: a shorter body runs into the marker's backtick. */
  lemma UntaggedNotTag(text: string, b: nat, body: string, q: nat)
    requires b + |body| == q && q + 3 <= |text|
    requires text[b..q] == body && OccursAt(text, Fence, q) && !StartsWithTag(body)
    ensures !OccursAt(text, JsonTag, b)
  {
    if b + 4 <= |text| {
      if |body| >= 4 {
        assert text[b..b + 4] == body[..4];
      } else {
        assert text[q] == '`' by {
          assert text[q] == text[q..q + 3][0];
        }
        assert text[b..b + 4][|body|] == text[q];
        assert JsonTag[|body|] != '`';
      }
    }
  }

  /** Where the markers, the tag and the body sit in a wrapped reply `text`:
      the prose up to `i`, the opener, the tag up to `b`, the body up to the
      closer at `q`. */
  predicate Wrapped(text: string, pre: string, tag: string, body: string) {
    var i := |pre|;
    var b := i + 3 + |tag|;
    var q := b + |body|;
    && q + 3 <= |text|
    && OccursAt(text, Fence, i) && OccursAt(text, Fence, q)
    && text[..i] == pre && text[i + 3..b] == tag && text[b..q] == body
  }

  lemma WrappedLayout(pre: string, tag: string, body: string, post: string)
    ensures Wrapped(pre + Fence + tag + body + Fence + post, pre, tag, body)
  {
    var text := pre + Fence + tag + body + Fence + post;
    var i := |pre|;
    var b := i + 3 + |tag|;
    var q := b + |body|;
    assert text[i..i + 3] == Fence;
    assert text[i + 3..b] == tag;
    assert text[q..q + 3] == Fence;
    assert text[..i] == pre;
    assert text[b..q] == body;
  }

  /** A brace-delimited span between prose that mentions no braces is what the
      brace strategy extracts. */
  lemma {:induction false} BraceSpanOfEmbedded(pre: string, mid: string, post: string)
    requires '{' !in pre && '}' !in post
    ensures BraceSpan(pre + "{" + mid + "}" + post) == Some("{" + mid + "}")
  {
    var text := pre + "{" + mid + "}" + post;
    var i := |pre|;
    var j := |pre| + 1 + |mid|;
    assert text[i] == '{' && text[j] == '}';
    forall k | 0 <= k < i ensures text[k] != '{' {
      assert text[k] == pre[k];
    }
    forall k | j < k < |text| ensures text[k] != '}' {
      assert text[k] == post[k - j - 1];
    }
    assert FirstIndexOf(text, '{', 0) == Some(i);
    assert LastIndexOf(text, '}', |text|) == Some(j);
    assert text[i..j + 1] == "{" + mid + "}";
  }

  /** A reply whose JSON sits in a fence, tagged or not, is recovered when the
      whole reply does not parse. */
  lemma FencedReplyRecovered(pre: string, tag: string, ws1: string, c: string, ws2: string, post: string, parse: Parser)
    requires '`' !in pre && '`' !in c
    requires AllSpace(ws1) && AllSpace(ws2)
    requires |c| > 0 ==> !IsSpace(c[0]) && !IsSpace(c[|c| - 1])
    requires tag == JsonTag || (tag == "" && (|ws1| > 0 || !StartsWithTag(c)))
    requires parse(pre + Fence + tag + ws1 + c + ws2 + Fence + post).Err?
    requires parse(c).Ok?
    ensures SafeJsonParse(pre + Fence + tag + ws1 + c + ws2 + Fence + post, parse) == parse(c)
  {
    FencedBlockOfWrapped(pre, tag, ws1, c, ws2, post);
  }

  /** A reply with no backtick that embeds a parseable object in prose is
      recovered through the brace strategy. */
  lemma EmbeddedObjectRecovered(pre: string, mid: string, post: string, parse: Parser)
    requires '{' !in pre && '}' !in post
    requires '`' !in pre + "{" + mid + "}" + post
    requires parse(pre + "{" + mid + "}" + post).Err?
    requires parse("{" + mid + "}").Ok?
    ensures SafeJsonParse(pre + "{" + mid + "}" + post, parse) == parse("{" + mid + "}")
  {
    BraceSpanOfEmbedded(pre, mid, post);
    NoBacktickNoBlock(pre + "{" + mid + "}" + post);
  }

  /** Text without a backtick has no fenced block. */
  lemma NoBacktickNoBlock(text: string)
    requires '`' !in text
    ensures FencedBlock(text).None?
  {
    forall j ensures !OccursAt(text, Fence, j) {
      if 0 <= j && j + 3 <= |text| {
        assert text[j..j + 3][0] == text[j];
      }
    }
  }

  /** Once a fenced block is found and fails to parse, nothing else is tried:
      the reply is reported with the block's own parse error, whatever braces
      or parseable text follow the closing fence. */
  lemma FenceShadowsBraceSpan(pre: string, tag: string, ws1: string, c: string, ws2: string, post: string, parse: Parser)
    requires '`' !in pre && '`' !in c
    requires AllSpace(ws1) && AllSpace(ws2)
    requires |c| > 0 ==> !IsSpace(c[0]) && !IsSpace(c[|c| - 1])
    requires tag == JsonTag || (tag == "" && (|ws1| > 0 || !StartsWithTag(c)))
    requires parse(pre + Fence + tag + ws1 + c + ws2 + Fence + post).Err?
    requires parse(c).Err?
    ensures SafeJsonParse(pre + Fence + tag + ws1 + c + ws2 + Fence + post, parse)
         == Err(ParseFailurePrefix + parse(c).error)
  {
    FencedBlockOfWrapped(pre, tag, ws1, c, ws2, post);
  }
}
