/** The application state of `AppProvider` and `processUserInput` as a state
    transition. A run is the list of state updates it performs, in order; the
    remote outcomes come in a `Remote` bundle, and the ids `generateId` would
    draw from the clock and `Math.random` come from a supply indexed by the
    number of messages already present. */
module Conversation {
  import opened Wrappers
  import opened Text
  import opened Json
  import opened Records
  import opened Personality
  import opened Recommendations
  import ReplyParsing

  datatype Sender = User | Bot

  /** The seeded greeting has the numeric id 1; later messages get generated ids. */
  datatype MessageId = Seed(n: nat) | Generated(token: string)

  datatype Message = Message(id: MessageId, text: string, sender: Sender)

  /** The four pieces of state the provider holds. */
  datatype State = State(
    messages: seq<Message>,
    loading: bool,
    recommendations: Entries<seq<Value>>,
    profileSummary: string)

  const Greeting := "Hi there! I'm your Pop Culture Twin Finder. Tell me about your personality, interests, and preferences, and I'll find your perfect pop culture matches!"
  const AnalyzingMessage := "Analyzing your personality and finding your perfect pop culture matches..."
  const FoundMessage := "Here are your personalized pop culture recommendations!"
  const NothingFoundMessage := "I couldn't fetch any recommendations at the moment, but here's a summary of your pop culture profile:"
  const FailureMessage := "Oops! Something went wrong while processing your request. Please try again."

  /** One empty list per default type, in the order the object literal lists them. */
  function EmptyLists(types: seq<string>): (r: Entries<seq<Value>>)
    ensures Keys(r) == types
    ensures forall i :: 0 <= i < |r| ==> r[i].1 == []
  {
    seq(|types|, i requires 0 <= i < |types| => (types[i], []))
  }

  /** The state before any input. */
  function InitialState(): (r: State)
    ensures r.messages == [Message(Seed(1), Greeting, Bot)]
    ensures !r.loading && r.profileSummary == ""
    ensures Keys(r.recommendations) == DefaultEntityTypes && UniqueKeys(r.recommendations)
    ensures forall i :: 0 <= i < |r.recommendations| ==> r.recommendations[i].1 == []
  {
    DefaultTypesSupported();
    State([Message(Seed(1), Greeting, Bot)], false, EmptyLists(DefaultEntityTypes), "")
  }

  /** `addMessage(text, sender)`: one message at the end, nothing else touched. */
  function AddMessage(s: State, id: string, text: string, sender: Sender): (r: State)
    ensures |r.messages| == |s.messages| + 1
    ensures r.messages[..|s.messages|] == s.messages
    ensures r.messages[|s.messages|] == Message(Generated(id), text, sender)
    ensures r.loading == s.loading && r.recommendations == s.recommendations && r.profileSummary == s.profileSummary
  {
    var r := s.(messages := s.messages + [Message(Generated(id), text, sender)]);
    assert r.messages[..|s.messages|] == s.messages;
    r
  }

  /** The state updates `processUserInput` performs. */
  datatype Effect =
    | SetLoading(on: bool)
    | Append(text: string, sender: Sender)
    | SetRecommendations(lists: Entries<seq<Value>>)
    | SetSummary(summary: string)

  function Apply(s: State, e: Effect, ids: nat -> string): State {
    match e
    case SetLoading(b) => s.(loading := b)
    case Append(text, sender) => AddMessage(s, ids(|s.messages|), text, sender)
    case SetRecommendations(lists) => s.(recommendations := lists)
    case SetSummary(summary) => s.(profileSummary := summary)
  }

  function ApplyAll(s: State, effects: seq<Effect>, ids: nat -> string): State
    decreases |effects|
  {
    if |effects| == 0 then s else ApplyAll(Apply(s, effects[0], ids), effects[1..], ids)
  }

  /** The text and sender of each message. */
  function Said(ms: seq<Message>): (r: seq<(string, Sender)>)
    ensures |r| == |ms|
    ensures forall i :: 0 <= i < |ms| ==> r[i] == (ms[i].text, ms[i].sender)
  {
    seq(|ms|, i requires 0 <= i < |ms| => (ms[i].text, ms[i].sender))
  }

  /** The text and sender of each `Append`, in order. */
  function Appends(effects: seq<Effect>): seq<(string, Sender)> {
    if |effects| == 0 then []
    else (if effects[0].Append? then [(effects[0].text, effects[0].sender)] else []) + Appends(effects[1..])
  }

  lemma {:induction false} AppendsConcat(a: seq<Effect>, b: seq<Effect>)
    ensures Appends(a + b) == Appends(a) + Appends(b)
    decreases |a|
  {
    if |a| > 0 {
      assert (a + b)[0] == a[0];
      assert (a + b)[1..] == a[1..] + b;
      AppendsConcat(a[1..], b);
      var h := if a[0].Append? then [(a[0].text, a[0].sender)] else [];
      assert Appends(a + b) == h + Appends(a[1..] + b);
      assert Appends(a) == h + Appends(a[1..]);
    } else {
      assert a + b == b;
    }
  }

  lemma AppendsCons(e: Effect, rest: seq<Effect>)
    ensures Appends([e] + rest) == (if e.Append? then [(e.text, e.sender)] else []) + Appends(rest)
  {
    assert ([e] + rest)[1..] == rest;
  }

  /** Messages are only ever appended: whatever the updates, the old messages
      stay as they were, and the new ones are exactly the appended texts. */
  lemma {:induction false} ApplyAllAppendsOnly(s: State, effects: seq<Effect>, ids: nat -> string)
    decreases |effects|
    ensures var r := ApplyAll(s, effects, ids);
            && |r.messages| >= |s.messages|
            && r.messages[..|s.messages|] == s.messages
            && Said(r.messages[|s.messages|..]) == Appends(effects)
  {
    if |effects| > 0 {
      var s1 := Apply(s, effects[0], ids);
      ApplyAllAppendsOnly(s1, effects[1..], ids);
      var r := ApplyAll(s, effects, ids);
      assert r == ApplyAll(s1, effects[1..], ids);
      assert r.messages[..|s.messages|] == s1.messages[..|s.messages|];
      if effects[0].Append? {
        assert s1.messages[..|s.messages|] == s.messages;
        assert r.messages[|s.messages|..] == [s1.messages[|s.messages|]] + r.messages[|s1.messages|..];
        assert Said(r.messages[|s.messages|..]) == [(effects[0].text, effects[0].sender)] + Said(r.messages[|s1.messages|..]);
      } else {
        assert s1.messages == s.messages;
      }
    } else {
      assert s.messages[|s.messages|..] == [];
    }
  }

  lemma {:induction false} ApplyAllConcat(s: State, a: seq<Effect>, b: seq<Effect>, ids: nat -> string)
    ensures ApplyAll(s, a + b, ids) == ApplyAll(ApplyAll(s, a, ids), b, ids)
    decreases |a|
  {
    if |a| > 0 {
      assert (a + b)[1..] == a[1..] + b;
      ApplyAllConcat(Apply(s, a[0], ids), a[1..], b, ids);
    } else {
      assert a + b == b;
    }
  }

  /** Updates that never set recommendations or the summary leave them alone. */
  lemma {:induction false} ApplyAllKeepsLists(s: State, effects: seq<Effect>, ids: nat -> string)
    requires forall i :: 0 <= i < |effects| ==> !effects[i].SetRecommendations? && !effects[i].SetSummary?
    ensures ApplyAll(s, effects, ids).recommendations == s.recommendations
    ensures ApplyAll(s, effects, ids).profileSummary == s.profileSummary
    decreases |effects|
  {
    if |effects| > 0 {
      ApplyAllKeepsLists(Apply(s, effects[0], ids), effects[1..], ids);
    }
  }

  // ---------------------------------------------------------------------------
  // The run
  // ---------------------------------------------------------------------------

  /** The remote outcomes one run sees. */
  datatype Remote = Remote(
    gemini: nat -> CallOutcome,           // the analysis calls, by attempt
    parse: ReplyParsing.Parser,           // `JSON.parse`
    summary: SummaryOutcome,              // the summary call
    qloo: Request -> FetchOutcome,        // the recommendation requests
    itemIds: (string, nat) -> string,     // random item ids, by type and position
    messageIds: nat -> string)            // message ids, by message count

  /** `Promise.all(entityTypes.map(t => getRecommendations(t, 3)))`, in type order. */
  function FetchAll(types: seq<string>, remote: Remote): (r: seq<seq<Value>>)
    ensures |r| == |types|
    ensures forall i :: 0 <= i < |types| ==> |r[i]| <= DefaultLimit
    ensures forall i :: 0 <= i < |types| ==>
              r[i] == GetRecommendations(types[i], DefaultLimit, remote.qloo, (k: nat) => remote.itemIds(types[i], k)).items
  {
    seq(|types|, i requires 0 <= i < |types| =>
      GetRecommendations(types[i], DefaultLimit, remote.qloo, (k: nat) => remote.itemIds(types[i], k)).items)
  }

  /** `newRecommendations[type] = results[index]` for each type in turn, on a copy
      of the current lists. */
  function Merge(lists: Entries<seq<Value>>, types: seq<string>, results: seq<seq<Value>>): (r: Entries<seq<Value>>)
    requires |types| == |results|
    ensures UniqueKeys(lists) ==> UniqueKeys(r)
    decreases |types|
  {
    if |types| == 0 then lists
    else Merge(Put(lists, types[0], results[0]), types[1..], results[1..])
  }

  /** Each merged type holds its result (the last one, should a type repeat);
      every other key keeps its old list. */
  lemma MergeLookup(lists: Entries<seq<Value>>, types: seq<string>, results: seq<seq<Value>>)
    requires |types| == |results|
    ensures forall i :: 0 <= i < |types| && (forall j :: i < j < |types| ==> types[j] != types[i]) ==>
              Lookup(Merge(lists, types, results), types[i]) == Some(results[i])
    ensures forall k :: k !in types ==> Lookup(Merge(lists, types, results), k) == Lookup(lists, k)
  {
    forall i | 0 <= i < |types| && (forall j :: i < j < |types| ==> types[j] != types[i])
      ensures Lookup(Merge(lists, types, results), types[i]) == Some(results[i])
    {
      MergeLastWrite(lists, types, results, i);
    }
    forall k | k !in types
      ensures Lookup(Merge(lists, types, results), k) == Lookup(lists, k)
    {
      MergeKeepsOthers(lists, types, results, k);
    }
  }

  /** A key that is not merged keeps its list. */
  lemma {:induction false} MergeKeepsOthers(lists: Entries<seq<Value>>, types: seq<string>, results: seq<seq<Value>>, k: string)
    requires |types| == |results| && k !in types
    ensures Lookup(Merge(lists, types, results), k) == Lookup(lists, k)
    decreases |types|
  {
    if |types| > 0 {
      assert k != types[0] && k !in types[1..];
      MergeKeepsOthers(Put(lists, types[0], results[0]), types[1..], results[1..], k);
    }
  }

  /** The last write of a type is the one that stays. */
  lemma {:induction false} MergeLastWrite(lists: Entries<seq<Value>>, types: seq<string>, results: seq<seq<Value>>, i: nat)
    requires |types| == |results| && i < |types|
    requires forall j :: i < j < |types| ==> types[j] != types[i]
    ensures Lookup(Merge(lists, types, results), types[i]) == Some(results[i])
    decreases |types|
  {
    var next := Put(lists, types[0], results[0]);
    var rest := types[1..];
    if i == 0 {
      assert types[0] !in rest by {
        forall m | 0 <= m < |rest| ensures rest[m] != types[0] {
          assert rest[m] == types[m + 1];
        }
      }
      MergeKeepsOthers(next, rest, results[1..], types[0]);
    } else {
      assert rest[i - 1] == types[i] && results[1..][i - 1] == results[i];
      forall j | i - 1 < j < |rest| ensures rest[j] != rest[i - 1] {
        assert rest[j] == types[j + 1];
      }
      MergeLastWrite(next, rest, results[1..], i - 1);
    }
  }

  /** The merge adds the types not yet present, after the existing keys, and
      keeps the order of those already there. */
  lemma {:induction false} MergeKeys(lists: Entries<seq<Value>>, types: seq<string>, results: seq<seq<Value>>)
    requires |types| == |results|
    ensures forall k :: k in Keys(Merge(lists, types, results)) <==> k in Keys(lists) || k in types
    ensures (forall k :: k in types ==> k in Keys(lists)) ==> Keys(Merge(lists, types, results)) == Keys(lists)
    decreases |types|
  {
    if |types| > 0 {
      var next := Put(lists, types[0], results[0]);
      MergeKeys(next, types[1..], results[1..]);
      assert forall k :: k in types <==> k == types[0] || k in types[1..];
    }
  }

  /** Every merged entry is an old entry or a type paired with its result. */
  lemma {:induction false} MergeEntries(lists: Entries<seq<Value>>, types: seq<string>, results: seq<seq<Value>>)
    requires |types| == |results|
    ensures forall p :: p in Merge(lists, types, results) ==>
              p in lists || exists j :: 0 <= j < |types| && p == (types[j], results[j])
    decreases |types|
  {
    if |types| > 0 {
      var next := Put(lists, types[0], results[0]);
      MergeEntries(next, types[1..], results[1..]);
      forall p | p in Merge(lists, types, results)
        ensures p in lists || exists j :: 0 <= j < |types| && p == (types[j], results[j])
      {
        if p !in next {
          var j :| 0 <= j < |types[1..]| && p == (types[1..][j], results[1..][j]);
          assert p == (types[j + 1], results[j + 1]);
        } else if p !in lists {
          assert p == (types[0], results[0]);
        }
      }
    }
  }

  /** `Object.values(lists).some(arr => arr.length > 0)`. */
  predicate AnyNonEmpty(lists: Entries<seq<Value>>) {
    exists i :: 0 <= i < |lists| && |lists[i].1| > 0
  }

  /** The first three updates of every run that starts. */
  function Opening(input: string): seq<Effect> {
    [SetLoading(true), Append(input, User), Append(AnalyzingMessage, Bot)]
  }

  /** The catch and finally blocks. */
  function Aborted(): seq<Effect> {
    [Append(FailureMessage, Bot), SetLoading(false)]
  }

  /** The updates after a successful analysis: the merged lists, the summary, its
      message, the closing message, then the finally block. */
  function Completed(merged: Entries<seq<Value>>, summary: string): (effects: seq<Effect>)
    ensures IsCompletion(effects)
    ensures effects[0].lists == merged && effects[1].summary == summary
    ensures effects[3].text == if AnyNonEmpty(merged) then FoundMessage else NothingFoundMessage
  {
    var closing := if AnyNonEmpty(merged) then FoundMessage else NothingFoundMessage;
    [SetRecommendations(merged), SetSummary(summary), Append(summary, Bot), Append(closing, Bot), SetLoading(false)]
  }

  /** The lists a successful run stores: the fetched results merged over `s`. */
  function MergedFor(s: State, remote: Remote, types: seq<string>): Entries<seq<Value>> {
    Merge(s.recommendations, types, FetchAll(types, remote))
  }

  /** The summary a successful run stores. */
  function SummaryFor(analysis: Value, remote: Remote): string {
    GenerateProfileSummary(Field(analysis, "traits"), Field(analysis, "interests"), remote.summary).text
  }

  /** How `analyzePersonality(input)` settles, with its default retries. */
  function Analysis(remote: Remote): Settled {
    AnalyzePersonality(DefaultRetries, 0, remote.gemini, remote.parse).settled
  }

  /** Everything after the opening, once the analysis has settled: the catch
      path when it rejects. */
  function Outcome(s: State, settled: Settled, remote: Remote, types: seq<string>): (effects: seq<Effect>)
    ensures |effects| >= 2 && effects[|effects| - 1] == SetLoading(false)
  {
    match settled
    case Rejected => Aborted()
    case Resolved(analysis) => Completed(MergedFor(s, remote, types), SummaryFor(analysis, remote))
  }

  /** A run whose analysis settles as `settled` and that fetches the given types. */
  function RunFor(s: State, input: string, settled: Settled, remote: Remote, types: seq<string>): (effects: seq<Effect>)
    ensures IsBlank(input) <==> effects == []
    ensures !IsBlank(input) ==> |effects| >= 5 && effects[..3] == Opening(input)
    ensures !IsBlank(input) ==> effects[|effects| - 1] == SetLoading(false)
  {
    if IsBlank(input) then []
    else
      var rest := Outcome(s, settled, remote, types);
      assert (Opening(input) + rest)[..3] == Opening(input);
      Opening(input) + rest
  }

  /** The updates of `processUserInput(input)` from state `s`: the default types. */
  function ProcessUserInput(s: State, input: string, remote: Remote): (effects: seq<Effect>)
    ensures IsBlank(input) <==> effects == []
    ensures !IsBlank(input) ==> |effects| >= 5 && effects[..3] == Opening(input)
    ensures !IsBlank(input) ==> effects[|effects| - 1] == SetLoading(false)
  {
    RunFor(s, input, Analysis(remote), remote, DefaultEntityTypes)
  }

  /** The state after `processUserInput(input)` has settled. */
  function Submit(s: State, input: string, remote: Remote): State {
    ApplyAll(s, ProcessUserInput(s, input, remote), remote.messageIds)
  }

  /** Input that trims to nothing changes nothing. */
  lemma BlankInputIgnored(s: State, input: string, remote: Remote)
    requires IsBlank(input)
    ensures Submit(s, input, remote) == s
  {
  }

  /** Applying updates that end by clearing the flag leaves it cleared. */
  lemma EndsNotLoading(s: State, effects: seq<Effect>, ids: nat -> string)
    requires |effects| > 0 && effects[|effects| - 1] == SetLoading(false)
    ensures !ApplyAll(s, effects, ids).loading
  {
    var n := |effects|;
    assert effects == effects[..n - 1] + [SetLoading(false)];
    ApplyAllConcat(s, effects[..n - 1], [SetLoading(false)], ids);
  }

  /** Every run that starts ends with the loading flag cleared. */
  lemma LoadingClearedAfterRun(s: State, input: string, remote: Remote)
    requires !IsBlank(input)
    ensures !Submit(s, input, remote).loading
  {
    EndsNotLoading(s, ProcessUserInput(s, input, remote), remote.messageIds);
  }

  /** The old messages survive every run unchanged. */
  lemma SubmitAppendsOnly(s: State, input: string, remote: Remote)
    ensures |Submit(s, input, remote).messages| >= |s.messages|
    ensures Submit(s, input, remote).messages[..|s.messages|] == s.messages
  {
    ApplyAllAppendsOnly(s, ProcessUserInput(s, input, remote), remote.messageIds);
  }

  lemma AppendsOfOpening(input: string)
    ensures Appends(Opening(input)) == [(input, User), (AnalyzingMessage, Bot)]
  {
    var e := Opening(input);
    AppendsCons(e[0], e[1..]);
    AppendsCons(e[1], e[2..]);
    AppendsCons(e[2], []);
    assert [e[0]] + e[1..] == e;
    assert [e[1]] + e[2..] == e[1..];
    assert [e[2]] + [] == e[2..];
  }

  lemma AppendsOfAborted()
    ensures Appends(Aborted()) == [(FailureMessage, Bot)]
  {
    var e := Aborted();
    AppendsCons(e[0], e[1..]);
    AppendsCons(e[1], []);
    assert [e[0]] + e[1..] == e;
    assert [e[1]] + [] == e[1..];
  }

  /** The shape of the successful tail, whatever it stores. */
  predicate IsCompletion(e: seq<Effect>) {
    && |e| == 5
    && e[0].SetRecommendations?
    && e[1].SetSummary?
    && e[2] == Append(e[1].summary, Bot)
    && e[3].Append? && e[3].sender == Bot
    && e[4] == SetLoading(false)
  }

  lemma AppendsOfCompletion(e: seq<Effect>)
    requires IsCompletion(e)
    ensures Appends(e) == [(e[1].summary, Bot), (e[3].text, Bot)]
  {
    AppendsCons(e[0], e[1..]);
    AppendsCons(e[1], e[2..]);
    AppendsCons(e[2], e[3..]);
    AppendsCons(e[3], e[4..]);
    AppendsCons(e[4], []);
    assert [e[0]] + e[1..] == e;
    assert [e[1]] + e[2..] == e[1..];
    assert [e[2]] + e[3..] == e[2..];
    assert [e[3]] + e[4..] == e[3..];
    assert [e[4]] + [] == e[4..];
  }

  /** Updates that set the lists, then the summary, then touch neither leave
      exactly those two values behind. */
  lemma ApplyListsThenSummary(started: State, e: seq<Effect>, ids: nat -> string)
    requires |e| >= 2 && e[0].SetRecommendations? && e[1].SetSummary?
    requires forall i :: 2 <= i < |e| ==> !e[i].SetRecommendations? && !e[i].SetSummary?
    ensures ApplyAll(started, e, ids).recommendations == e[0].lists
    ensures ApplyAll(started, e, ids).profileSummary == e[1].summary
  {
    var st1 := Apply(started, e[0], ids);
    var st2 := Apply(st1, e[1], ids);
    assert ApplyAll(started, e, ids) == ApplyAll(st1, e[1..], ids);
    assert e[1..][1..] == e[2..];
    assert ApplyAll(st1, e[1..], ids) == ApplyAll(st2, e[2..], ids);
    ApplyAllKeepsLists(st2, e[2..], ids);
  }

  /** The opening followed by a successful tail: four messages, the stored lists
      and summary. */
  lemma OpeningThenCompletion(s: State, input: string, done: seq<Effect>, ids: nat -> string)
    requires IsCompletion(done)
    ensures var r := ApplyAll(s, Opening(input) + done, ids);
            && |r.messages| >= |s.messages|
            && r.messages[..|s.messages|] == s.messages
            && Said(r.messages[|s.messages|..]) ==
                 [(input, User), (AnalyzingMessage, Bot), (done[1].summary, Bot), (done[3].text, Bot)]
            && r.recommendations == done[0].lists
            && r.profileSummary == done[1].summary
  {
    var opening := Opening(input);
    ApplyAllAppendsOnly(s, opening + done, ids);
    AppendsOfOpening(input);
    AppendsOfCompletion(done);
    AppendsConcat(opening, done);
    ApplyAllConcat(s, opening, done, ids);
    ApplyListsThenSummary(ApplyAll(s, opening, ids), done, ids);
  }

  /** A successful run with any type list: the four messages, the stored lists and
      summary. */
  lemma SucceedsFor(s: State, input: string, settled: Settled, remote: Remote, types: seq<string>)
    requires !IsBlank(input)
    requires settled.Resolved?
    ensures var analysis := settled.analysis;
            var merged := MergedFor(s, remote, types);
            var summary := SummaryFor(analysis, remote);
            var r := ApplyAll(s, RunFor(s, input, settled, remote, types), remote.messageIds);
            && |r.messages| >= |s.messages|
            && r.messages[..|s.messages|] == s.messages
            && Said(r.messages[|s.messages|..]) ==
                 [(input, User), (AnalyzingMessage, Bot), (summary, Bot),
                  (if AnyNonEmpty(merged) then FoundMessage else NothingFoundMessage, Bot)]
            && r.recommendations == merged
            && r.profileSummary == summary
  {
    var analysis := settled.analysis;
    var done := Completed(MergedFor(s, remote, types), SummaryFor(analysis, remote));
    assert RunFor(s, input, settled, remote, types) == Opening(input) + done;
    OpeningThenCompletion(s, input, done, remote.messageIds);
  }

  /** A successful run adds the user's text, the progress note, the summary and a
      closing message chosen by whether any list is non-empty, and stores the
      merged lists and the summary. */
  lemma SuccessfulRun(s: State, input: string, remote: Remote)
    requires !IsBlank(input)
    requires Analysis(remote).Resolved?
    ensures var analysis := Analysis(remote).analysis;
            var merged := MergedFor(s, remote, DefaultEntityTypes);
            var summary := SummaryFor(analysis, remote);
            var r := Submit(s, input, remote);
            && |r.messages| >= |s.messages|
            && r.messages[..|s.messages|] == s.messages
            && Said(r.messages[|s.messages|..]) ==
                 [(input, User), (AnalyzingMessage, Bot), (summary, Bot),
                  (if AnyNonEmpty(merged) then FoundMessage else NothingFoundMessage, Bot)]
            && r.recommendations == merged
            && r.profileSummary == summary
            && !r.loading
  {
    SucceedsFor(s, input, Analysis(remote), remote, DefaultEntityTypes);
    LoadingClearedAfterRun(s, input, remote);
  }

  /** A run whose analysis rejects adds the user's text, the progress note and one
      failure message, and leaves the lists and the summary alone. */
  lemma FailedRun(s: State, input: string, remote: Remote)
    requires !IsBlank(input)
    requires Analysis(remote).Rejected?
    ensures var r := Submit(s, input, remote);
            && |r.messages| >= |s.messages|
            && r.messages[..|s.messages|] == s.messages
            && Said(r.messages[|s.messages|..]) == [(input, User), (AnalyzingMessage, Bot), (FailureMessage, Bot)]
            && r.recommendations == s.recommendations
            && r.profileSummary == s.profileSummary
            && !r.loading
  {
    FailsFor(s, input, Analysis(remote), remote, DefaultEntityTypes);
    LoadingClearedAfterRun(s, input, remote);
  }

  lemma FailsFor(s: State, input: string, settled: Settled, remote: Remote, types: seq<string>)
    requires !IsBlank(input)
    requires settled.Rejected?
    ensures var r := ApplyAll(s, RunFor(s, input, settled, remote, types), remote.messageIds);
            && |r.messages| >= |s.messages|
            && r.messages[..|s.messages|] == s.messages
            && Said(r.messages[|s.messages|..]) == [(input, User), (AnalyzingMessage, Bot), (FailureMessage, Bot)]
            && r.recommendations == s.recommendations
            && r.profileSummary == s.profileSummary
  {
    var effects := RunFor(s, input, settled, remote, types);
    assert effects == Opening(input) + Aborted();
    ApplyAllAppendsOnly(s, effects, remote.messageIds);
    AppendsOfOpening(input);
    AppendsOfAborted();
    AppendsConcat(Opening(input), Aborted());
    ApplyAllKeepsLists(s, effects, remote.messageIds);
  }

  /** Merging into one empty list per type, with a result per type, yields exactly
      those types in order, each holding at most three items. */
  lemma MergedShape(s: State, types: seq<string>, remote: Remote)
    requires s.recommendations == EmptyLists(types)
    requires forall i, j :: 0 <= i < j < |types| ==> types[i] != types[j]
    ensures var r := MergedFor(s, remote, types);
            && Keys(r) == types
            && UniqueKeys(r)
            && forall i :: 0 <= i < |r| ==> |r[i].1| <= DefaultLimit
  {
    var lists := EmptyLists(types);
    var results := FetchAll(types, remote);
    var merged := Merge(lists, types, results);
    MergeKeys(lists, types, results);
    MergeEntries(lists, types, results);
    forall i | 0 <= i < |merged| ensures |merged[i].1| <= DefaultLimit {
      assert merged[i] in merged;
      if merged[i] in lists {
        var j :| 0 <= j < |lists| && lists[j] == merged[i];
      }
    }
  }

  /** From the initial state, a successful run leaves exactly the five default
      types as keys, in their original order, each with at most three items. */
  lemma InitialRunShape(input: string, remote: Remote)
    requires !IsBlank(input)
    requires Analysis(remote).Resolved?
    ensures var r := Submit(InitialState(), input, remote).recommendations;
            && Keys(r) == DefaultEntityTypes
            && UniqueKeys(r)
            && forall i :: 0 <= i < |r| ==> |r[i].1| <= DefaultLimit
  {
    SuccessfulRun(InitialState(), input, remote);
    DefaultTypesSupported();
    MergedShape(InitialState(), DefaultEntityTypes, remote);
  }
}
