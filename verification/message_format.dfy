/** `formatMessage` of the chat bubble: the text is split around the matches of
    the URL pattern `(https?:\/\/[^\s]+)` with the global flag, exactly as
    `String.prototype.split` does with a capturing pattern, and each part that
    matches the pattern becomes a link to itself. */
module MessageFormat {
  import opened Wrappers
  import opened Text

  const Http := "http://"
  const Https := "https://"

  /** The length of the scheme `https?:\/\/` matches at `q`, or 0. */
  function SchemeAt(s: string, q: nat): (n: nat)
    ensures n == 8 <==> OccursAt(s, Https, q)
    ensures n == 7 <==> OccursAt(s, Http, q)
    ensures n == 0 <==> !OccursAt(s, Https, q) && !OccursAt(s, Http, q)
  {
    if OccursAt(s, Https, q) then
      assert s[q + 4] == s[q..q + 8][4];
      8
    else if OccursAt(s, Http, q) then 7
    else 0
  }

  /** The end of the run of non-whitespace characters that starts at `i`: where
      the greedy `[^\s]+` stops. */
  function RunEnd(s: string, i: nat): (r: nat)
    requires i <= |s|
    ensures i <= r <= |s|
    ensures forall k :: i <= k < r ==> !IsSpace(s[k])
    ensures r == |s| || IsSpace(s[r])
    decreases |s| - i
  {
    if i < |s| && !IsSpace(s[i]) then RunEnd(s, i + 1) else i
  }

  /** The pattern matches at `q`: a scheme, then at least one non-whitespace
      character. */
  predicate UrlAt(s: string, q: nat) {
    var n := SchemeAt(s, q);
    n > 0 && q + n < |s| && !IsSpace(s[q + n])
  }

  /** Where the match at `q` ends: the whole non-whitespace run after the scheme. */
  function MatchEnd(s: string, q: nat): (e: nat)
    requires UrlAt(s, q)
    ensures q + SchemeAt(s, q) < e <= |s|
    ensures e == |s| || IsSpace(s[e])
  {
    RunEnd(s, q + SchemeAt(s, q))
  }

  /** The first position at or after `from` where the pattern matches. */
  function NextUrl(s: string, from: nat): (r: Option<nat>)
    ensures r.Some? ==> from <= r.value && UrlAt(s, r.value)
    ensures r.Some? ==> forall j :: from <= j < r.value ==> !UrlAt(s, j)
    ensures r.None? ==> forall j :: from <= j ==> !UrlAt(s, j)
    decreases |s| - from
  {
    if from >= |s| then None
    else if UrlAt(s, from) then Some(from)
    else NextUrl(s, from + 1)
  }

  /** `part.match(urlRegex)` is non-null. */
  predicate HasUrl(s: string) {
    NextUrl(s, 0).Some?
  }

  /** `text.split(urlRegex)` from position `p` on: the text before each match,
      then the captured match, and finally the rest. */
  function SplitFrom(s: string, p: nat): seq<string>
    requires p <= |s|
    decreases |s| - p
  {
    match NextUrl(s, p)
    case None => [s[p..]]
    case Some(q) =>
      var e := MatchEnd(s, q);
      [s[p..q], s[q..e]] + SplitFrom(s, e)
  }

  function Split(s: string): seq<string> {
    SplitFrom(s, 0)
  }

  function Concat(parts: seq<string>): string {
    if |parts| == 0 then "" else parts[0] + Concat(parts[1..])
  }

  /** A URL token: a scheme, at least one more character, no whitespace. */
  predicate IsUrlToken(t: string) {
    && ((OccursAt(t, Https, 0) && |t| > 8) || (OccursAt(t, Http, 0) && |t| > 7))
    && forall k :: 0 <= k < |t| ==> !IsSpace(t[k])
  }

  /** A rendered part: plain text, or an anchor keyed by its index. */
  datatype Part = Plain(text: string) | Link(key: nat, href: string, content: string)

  /** What `formatMessage` returns: `''` for falsy text, else the mapped parts. */
  datatype Formatted = Blank | Parts(parts: seq<Part>)

  function Shown(p: Part): string {
    match p
    case Plain(text) => text
    case Link(_, _, content) => content
  }

  function FormatMessage(text: string): (r: Formatted)
    ensures text == "" <==> r == Blank
    ensures r.Parts? ==> |r.parts| == |Split(text)|
  {
    if text == "" then Blank
    else
      var parts := Split(text);
      Parts(seq(|parts|, i requires 0 <= i < |parts| =>
        if HasUrl(parts[i]) then Link(i, parts[i], parts[i]) else Plain(parts[i])))
  }

  // ---------------------------------------------------------------------------
  // Properties
  // ---------------------------------------------------------------------------

  /** A match inside a slice is a match in the whole text. */
  lemma UrlAtSlice(s: string, p: nat, q: nat, j: nat)
    requires p <= q <= |s|
    requires UrlAt(s[p..q], j)
    ensures UrlAt(s, p + j)
  {
    var sub := s[p..q];
    if OccursAt(sub, Https, j) {
      OccursInSlice(s, p, q, Https, j);
    } else {
      OccursInSlice(s, p, q, Http, j);
    }
    assert s[p + j + SchemeAt(sub, j)] == sub[j + SchemeAt(sub, j)];
  }

  lemma OccursInSlice(s: string, p: nat, q: nat, t: string, j: nat)
    requires p <= q <= |s|
    requires OccursAt(s[p..q], t, j)
    ensures OccursAt(s, t, p + j)
  {
    forall k | 0 <= k < |t|
      ensures t[k] == s[p + j + k]
    {
      assert t[k] == s[p..q][j..j + |t|][k] == s[p..q][j + k];
    }
    assert s[p + j..p + j + |t|] == t;
  }

  /** A slice of a stretch without a match starting in it holds no match. */
  lemma NoUrlInSlice(s: string, p: nat, q: nat)
    requires p <= q <= |s|
    requires forall j :: p <= j < q ==> !UrlAt(s, j)
    ensures !HasUrl(s[p..q])
  {
    var sub := s[p..q];
    if HasUrl(sub) {
      var j := NextUrl(sub, 0).value;
      UrlAtSlice(s, p, q, j);
    }
  }

  /** The captured text of a match is a URL token that matches on its own. */
  lemma MatchIsUrlToken(s: string, q: nat)
    requires UrlAt(s, q)
    ensures IsUrlToken(s[q..MatchEnd(s, q)])
    ensures HasUrl(s[q..MatchEnd(s, q)])
  {
    var e := MatchEnd(s, q);
    var t := s[q..e];
    var n := SchemeAt(s, q);
    assert t[0..n] == s[q..q + n];
    assert forall k :: 0 <= k < n ==> !IsSpace(t[k]) by {
      if n == 8 {
        assert forall k :: 0 <= k < 8 ==> t[k] == Https[k];
      } else {
        assert forall k :: 0 <= k < 7 ==> t[k] == Http[k];
      }
    }
    assert forall k :: n <= k < |t| ==> t[k] == s[q + k];
    assert SchemeAt(t, 0) == n;
    assert UrlAt(t, 0);
  }

  lemma ConcatPair(a: string, b: string, rest: seq<string>)
    ensures Concat([a, b] + rest) == a + b + Concat(rest)
  {
    assert ([a, b] + rest)[1..] == [b] + rest;
    assert ([b] + rest)[1..] == rest;
  }

  /** The shape of a split: a stretch without a match, then zero or more pairs of
      a URL token and a stretch that is empty or starts with whitespace. */
  predicate Alternates(parts: seq<string>)
    decreases |parts|, 1
  {
    && |parts| > 0
    && !HasUrl(parts[0])
    && (|parts| == 1 || PairThenAlternates(parts))
  }

  /** A URL token, whitespace or nothing after it, then the same shape again. */
  predicate PairThenAlternates(parts: seq<string>)
    requires |parts| > 1
    decreases |parts|, 0
  {
    && |parts| >= 3
    && IsUrlToken(parts[1]) && HasUrl(parts[1])
    && (|parts[2]| == 0 || IsSpace(parts[2][0]))
    && Alternates(parts[2..])
  }

  /** The parts of a split alternate between stretches with no match and URL
      tokens. */
  lemma {:induction false} SplitFromAlternates(s: string, p: nat)
    requires p <= |s|
    ensures Alternates(SplitFrom(s, p))
    decreases |s| - p
  {
    match NextUrl(s, p)
    case None =>
      NoUrlInSlice(s, p, |s|);
      assert s[p..|s|] == s[p..];
    case Some(q) =>
      var e := MatchEnd(s, q);
      var rest := SplitFrom(s, e);
      SplitFromAlternates(s, e);
      NoUrlInSlice(s, p, q);
      MatchIsUrlToken(s, q);
      RestStartsAt(s, e);
      var parts := [s[p..q], s[q..e]] + rest;
      assert SplitFrom(s, p) == parts;
      assert parts[2..] == rest;
      assert PairThenAlternates(parts);
  }

  /** The parts of a split concatenate back to the text. */
  lemma {:induction false} SplitFromConcat(s: string, p: nat)
    requires p <= |s|
    ensures Concat(SplitFrom(s, p)) == s[p..]
    decreases |s| - p
  {
    match NextUrl(s, p)
    case None =>
      assert Concat([s[p..]]) == s[p..] + Concat([]);
    case Some(q) =>
      var e := MatchEnd(s, q);
      SplitFromConcat(s, e);
      ConcatPieces(s, p, q, e, SplitFrom(s, e));
  }

  lemma ConcatPieces(s: string, p: nat, q: nat, e: nat, rest: seq<string>)
    requires p <= q <= e <= |s| && Concat(rest) == s[e..]
    ensures Concat([s[p..q], s[q..e]] + rest) == s[p..]
  {
    ConcatPair(s[p..q], s[q..e], rest);
    assert s[p..q] + s[q..e] == s[p..e];
    assert s[p..e] + s[e..] == s[p..];
  }

  /** Alternation read by index: even parts hold no match, odd parts are URL
      tokens followed by whitespace or nothing, and the count is odd. */
  lemma AlternatesByIndex(parts: seq<string>)
    requires Alternates(parts)
    ensures |parts| % 2 == 1
    ensures forall i :: 0 <= i < |parts| && i % 2 == 0 ==> !HasUrl(parts[i])
    ensures forall i :: 0 <= i < |parts| && i % 2 == 1 ==> IsUrlToken(parts[i]) && HasUrl(parts[i])
    ensures forall i :: 0 <= i < |parts| - 1 && i % 2 == 1 ==> |parts[i + 1]| == 0 || IsSpace(parts[i + 1][0])
  {
    forall i | 0 <= i < |parts| && i % 2 == 0
      ensures !HasUrl(parts[i])
    {
      EvenPartPlain(parts, i);
    }
    forall i | 0 <= i < |parts| && i % 2 == 1
      ensures IsUrlToken(parts[i]) && HasUrl(parts[i]) && (i + 1 < |parts| ==> |parts[i + 1]| == 0 || IsSpace(parts[i + 1][0]))
    {
      OddPartToken(parts, i);
    }
    if |parts| % 2 == 0 {
      OddPartToken(parts, |parts| - 1);
    }
  }

  lemma Parity(i: int)
    requires i >= 2
    ensures (i - 2) % 2 == i % 2
  {
  }

  /** An even part holds no match. */
  lemma {:induction false} EvenPartPlain(parts: seq<string>, i: nat)
    requires Alternates(parts) && i < |parts| && i % 2 == 0
    ensures !HasUrl(parts[i])
    decreases i
  {
    if i >= 2 {
      assert PairThenAlternates(parts);
      Parity(i);
      assert parts[i] == parts[2..][i - 2];
      EvenPartPlain(parts[2..], i - 2);
    }
  }

  /** An odd part is a URL token, followed by whitespace or nothing; in
      particular the last part is never odd. */
  lemma {:induction false} OddPartToken(parts: seq<string>, i: nat)
    requires Alternates(parts) && i < |parts| && i % 2 == 1
    ensures IsUrlToken(parts[i]) && HasUrl(parts[i])
    ensures i + 1 < |parts|
    ensures |parts[i + 1]| == 0 || IsSpace(parts[i + 1][0])
    decreases i
  {
    assert PairThenAlternates(parts);
    if i >= 2 {
      Parity(i);
      var rest := parts[2..];
      assert parts[i] == rest[i - 2];
      OddPartToken(rest, i - 2);
      assert parts[i + 1] == rest[i - 1];
    }
  }

  /** The first part of a split from `e` starts with the character at `e`. */
  lemma RestStartsAt(s: string, e: nat)
    requires e <= |s|
    ensures |SplitFrom(s, e)[0]| > 0 ==> e < |s| && SplitFrom(s, e)[0][0] == s[e]
  {
  }

  /** Formatting hands back every character, in order: the rendered parts
      concatenate to the text. */
  lemma FormatRoundTrip(text: string)
    requires text != ""
    ensures var ps := FormatMessage(text).parts;
            Concat(seq(|ps|, i requires 0 <= i < |ps| => Shown(ps[i]))) == text
  {
    var ps := FormatMessage(text).parts;
    SplitFromAlternates(text, 0);
    SplitFromConcat(text, 0);
    AlternatesByIndex(Split(text));
    assert seq(|ps|, i requires 0 <= i < |ps| => Shown(ps[i])) == Split(text);
    assert text[0..] == text;
  }

  /** The odd parts, and only they, become links; a link's target and label are
      the URL token itself, and the plain parts hold no match. */
  lemma FormatLinks(text: string)
    requires text != ""
    ensures var ps := FormatMessage(text).parts;
            var parts := Split(text);
            && |ps| % 2 == 1
            && (forall i :: 0 <= i < |ps| ==> (ps[i].Link? <==> i % 2 == 1))
            && (forall i :: 0 <= i < |ps| && ps[i].Link? ==>
                  ps[i] == Link(i, parts[i], parts[i]) && IsUrlToken(ps[i].href))
            && (forall i :: 0 <= i < |ps| && ps[i].Plain? ==>
                  ps[i].text == parts[i] && !HasUrl(ps[i].text))
  {
    SplitFromAlternates(text, 0);
    SplitFromConcat(text, 0);
    AlternatesByIndex(Split(text));
  }

  /** Falsy text formats to the empty string. */
  lemma EmptyTextIsBlank()
    ensures FormatMessage("") == Blank
  {
  }
}
