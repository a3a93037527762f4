/**
 * The agent's conversation memory: a bounded, ordered log of interactions and
 * a key-to-value context map. Each operation of the mutable Python object is a
 * pure function from the old memory to the new one (or to what it returns).
 * The value type of the context and of interaction metadata is a parameter V,
 * standing for Python's `Any`; the clock reading that stamps an interaction is
 * passed in as `now`.
 */
module Memory {
  import opened Wrappers
  import opened Text
  import Slices

  datatype Interaction<V> = Interaction(
    timestamp: string,
    userInput: string,
    agentResponse: string,
    metadata: map<string, V>)

  datatype AgentMemory<V> = AgentMemory(
    maxHistory: int,
    history: seq<Interaction<V>>,
    context: map<string, V>)

  /** What `get_summary` reports; the context keys are a set here, not an insertion-ordered list. */
  datatype Summary = Summary(
    totalInteractions: nat,
    maxHistory: int,
    contextKeys: set<string>,
    oldestInteraction: Option<string>,
    newestInteraction: Option<string>)

  const DefaultMaxHistory: int := 100

  /** The bound that trimming in `add_interaction` establishes whenever the configured limit is positive. */
  predicate Bounded<V>(m: AgentMemory<V>)
  {
    m.maxHistory >= 1 ==> |m.history| <= m.maxHistory
  }

  /** `AgentMemory()`, with the default limit of 100 interactions. */
  function NewDefault<V>(): (m: AgentMemory<V>)
    ensures m.maxHistory == 100
    ensures |m.history| == 0 && |m.context| == 0
  {
    New(DefaultMaxHistory)
  }

  function New<V>(maxHistory: int): (m: AgentMemory<V>)
    ensures m.maxHistory == maxHistory
    ensures |m.history| == 0 && |m.context| == 0
    ensures Bounded(m)
  {
    AgentMemory(maxHistory, [], map[])
  }

  /** The record `add_interaction` builds; `metadata or {}` turns a missing metadata dict into an empty one. */
  function MakeInteraction<V>(now: string, userInput: string, agentResponse: string,
                              metadata: Option<map<string, V>>): (it: Interaction<V>)
    ensures it.userInput == userInput && it.agentResponse == agentResponse
    ensures it.timestamp == now
    ensures metadata.None? ==> it.metadata == map[]
    ensures metadata.Some? ==> it.metadata == metadata.value
  {
    Interaction(now, userInput, agentResponse, metadata.GetOr(map[]))
  }

  /** The trimming step: when the log is longer than the limit it becomes `history[-max_history:]`. */
  function Trim<V>(h: seq<Interaction<V>>, maxHistory: int): (r: seq<Interaction<V>>)
    ensures maxHistory >= 1 ==> |r| <= maxHistory
    ensures maxHistory >= 1 && |h| > maxHistory ==> r == h[|h| - maxHistory..]
    ensures |h| <= maxHistory ==> r == h
    ensures maxHistory == 0 ==> r == h
    ensures exists k :: 0 <= k <= |h| && r == h[k..]
  {
    if |h| > maxHistory then Slices.LastN(h, maxHistory)
    else assert h[0..] == h; h
  }

  /**
   * `add_interaction`: append the new record, then trim. The context and the
   * limit are untouched; what is kept of the old log is a suffix of it, in order.
   */
  function AddInteraction<V>(m: AgentMemory<V>, userInput: string, agentResponse: string,
                             metadata: Option<map<string, V>>, now: string): (m': AgentMemory<V>)
    ensures m'.maxHistory == m.maxHistory && m'.context == m.context
    ensures Bounded(m')
    ensures exists k :: 0 <= k <= |m.history| + 1
                     && m'.history == (m.history + [MakeInteraction(now, userInput, agentResponse, metadata)])[k..]
    ensures m.maxHistory >= 1 && |m.history| + 1 > m.maxHistory ==>
              |m'.history| == m.maxHistory
    ensures |m.history| < m.maxHistory ==>
              m'.history == m.history + [MakeInteraction(now, userInput, agentResponse, metadata)]
  {
    var it := MakeInteraction(now, userInput, agentResponse, metadata);
    m.(history := Trim(m.history + [it], m.maxHistory))
  }

  /** `get_history(n)`: everything for None, otherwise the Python slice `history[-n:]`. */
  function GetHistory<V>(m: AgentMemory<V>, n: Option<int>): (r: seq<Interaction<V>>)
    ensures n.None? ==> r == m.history
    ensures n.Some? && n.value >= 1 ==>
              r == m.history[|m.history| - (if n.value <= |m.history| then n.value else |m.history|)..]
    ensures n == Some(0) ==> r == m.history
    ensures n.Some? && n.value < 0 ==>
              r == m.history[(if -n.value <= |m.history| then -n.value else |m.history|)..]
  {
    match n
    case None => m.history
    case Some(k) => Slices.LastN(m.history, k)
  }

  /** `get_last_interaction`: the newest record, or None exactly when the log is empty. */
  function GetLastInteraction<V>(m: AgentMemory<V>): (r: Option<Interaction<V>>)
    ensures r.None? <==> |m.history| == 0
    ensures r.Some? ==> r.value == m.history[|m.history| - 1]
  {
    if |m.history| > 0 then Some(m.history[|m.history| - 1]) else None
  }

  function SetContext<V>(m: AgentMemory<V>, key: string, value: V): (m': AgentMemory<V>)
    ensures m'.history == m.history && m'.maxHistory == m.maxHistory
    ensures m'.context.Keys == m.context.Keys + {key}
    ensures key in m'.context && m'.context[key] == value
    ensures forall k :: k in m.context && k != key ==> k in m'.context && m'.context[k] == m.context[k]
  {
    m.(context := m.context[key := value])
  }

  /** `get_context(key, default)`: `dict.get`. */
  function GetContext<V>(m: AgentMemory<V>, key: string, default: V): (v: V)
    ensures key in m.context ==> v == m.context[key]
    ensures key !in m.context ==> v == default
  {
    if key in m.context then m.context[key] else default
  }

  function ClearContext<V>(m: AgentMemory<V>): (m': AgentMemory<V>)
    ensures m'.history == m.history && m'.maxHistory == m.maxHistory
    ensures |m'.context| == 0
  {
    m.(context := map[])
  }

  /** `clear`: forget the log and the context, keep the limit. */
  function Clear<V>(m: AgentMemory<V>): (m': AgentMemory<V>)
    ensures m'.maxHistory == m.maxHistory
    ensures |m'.history| == 0 && |m'.context| == 0
  {
    m.(history := [], context := map[])
  }

  function GetSummary<V>(m: AgentMemory<V>): (s: Summary)
    ensures s.totalInteractions == |m.history| && s.maxHistory == m.maxHistory
    ensures s.contextKeys == m.context.Keys
    ensures s.oldestInteraction.None? <==> |m.history| == 0
    ensures s.newestInteraction.None? <==> |m.history| == 0
    ensures |m.history| > 0 ==> s.oldestInteraction == Some(m.history[0].timestamp)
    ensures |m.history| > 0 ==> s.newestInteraction == Some(m.history[|m.history| - 1].timestamp)
  {
    if |m.history| == 0 then Summary(0, m.maxHistory, m.context.Keys, None, None)
    else Summary(|m.history|, m.maxHistory, m.context.Keys,
                 Some(m.history[0].timestamp), Some(m.history[|m.history| - 1].timestamp))
  }

  // ---------------------------------------------------------------------------
  // Searching

  /** The test `search_history` applies to one record: the lower-cased query occurs in either lower-cased text. */
  ghost predicate Matches<V>(query: string, it: Interaction<V>)
  {
    IsSubstring(Lower(query), Lower(it.userInput)) || IsSubstring(Lower(query), Lower(it.agentResponse))
  }

  /** Reference definition of the search: keep the matching records, in log order. */
  ghost function Matching<V>(h: seq<Interaction<V>>, query: string): seq<Interaction<V>>
    decreases |h|
  {
    if |h| == 0 then []
    else Matching(h[..|h| - 1], query) + (if Matches(query, h[|h| - 1]) then [h[|h| - 1]] else [])
  }

  /** `search_history(query)`, written as the source's loop over the log. */
  method SearchHistory<V>(m: AgentMemory<V>, query: string) returns (matches: seq<Interaction<V>>)
    ensures matches == Matching(m.history, query)
  {
    var queryLower := Lower(query);
    matches := [];
    var i := 0;
    while i < |m.history|
      invariant 0 <= i <= |m.history|
      invariant matches == Matching(m.history[..i], query)
    {
      var it := m.history[i];
      var inUser := Contains(queryLower, Lower(it.userInput));
      var inResponse := Contains(queryLower, Lower(it.agentResponse));
      assert m.history[..i + 1][..i] == m.history[..i];
      if inUser || inResponse {
        matches := matches + [it];
      }
      i := i + 1;
    }
    assert m.history[..|m.history|] == m.history;
  }

  /** `a` can be obtained from `b` by deleting entries, without reordering the rest. */
  ghost predicate IsSubsequence<T>(a: seq<T>, b: seq<T>)
    decreases |b|
  {
    if |a| == 0 then true
    else if |b| == 0 then false
    else (a[|a| - 1] == b[|b| - 1] && IsSubsequence(a[..|a| - 1], b[..|b| - 1]))
         || IsSubsequence(a, b[..|b| - 1])
  }

  /** Every search result is a record of the log that matches the query. */
  lemma {:induction false} MatchingSound<V>(h: seq<Interaction<V>>, query: string)
    ensures forall x :: x in Matching(h, query) ==> x in h && Matches(query, x)
    decreases |h|
  {
    if |h| > 0 {
      MatchingSound(h[..|h| - 1], query);
      assert forall x :: x in h[..|h| - 1] ==> x in h;
    }
  }

  /** Every record of the log that matches the query is among the search results. */
  lemma {:induction false} MatchingComplete<V>(h: seq<Interaction<V>>, query: string)
    ensures forall i :: 0 <= i < |h| && Matches(query, h[i]) ==> h[i] in Matching(h, query)
    decreases |h|
  {
    if |h| > 0 {
      var init := h[..|h| - 1];
      MatchingComplete(init, query);
      forall i | 0 <= i < |h| && Matches(query, h[i])
        ensures h[i] in Matching(h, query)
      {
        if i < |h| - 1 {
          assert h[i] == init[i];
        }
      }
    }
  }

  /** The search results keep the log's order: they are a subsequence of it. */
  lemma {:induction false} MatchingIsSubsequence<V>(h: seq<Interaction<V>>, query: string)
    ensures IsSubsequence(Matching(h, query), h)
    decreases |h|
  {
    if |h| > 0 {
      var init := h[..|h| - 1];
      var r := Matching(h, query);
      MatchingIsSubsequence(init, query);
      if Matches(query, h[|h| - 1]) {
        assert r[..|r| - 1] == Matching(init, query);
      } else {
        assert r == Matching(init, query);
      }
    }
  }

  /** An empty query matches every record, so the search returns the whole log. */
  lemma {:induction false} EmptyQueryMatchesAll<V>(h: seq<Interaction<V>>)
    ensures Matching(h, "") == h
    decreases |h|
  {
    if |h| > 0 {
      EmptyQueryMatchesAll(h[..|h| - 1]);
      assert Lower("") == "";
      EmptyIsSubstring(Lower(h[|h| - 1].userInput));
      assert h[..|h| - 1] + [h[|h| - 1]] == h;
    }
  }

  /** Two queries that lower-case alike return the same results. */
  lemma {:induction false} MatchingDependsOnLowerQuery<V>(h: seq<Interaction<V>>, q1: string, q2: string)
    requires Lower(q1) == Lower(q2)
    ensures Matching(h, q1) == Matching(h, q2)
    decreases |h|
  {
    if |h| > 0 {
      MatchingDependsOnLowerQuery(h[..|h| - 1], q1, q2);
    }
  }

  /** The search ignores the case of the query: upper- or lower-casing it changes nothing. */
  lemma SearchIgnoresQueryCase<V>(h: seq<Interaction<V>>, query: string)
    ensures Matching(h, Upper(query)) == Matching(h, query)
    ensures Matching(h, Lower(query)) == Matching(h, query)
  {
    LowerOfUpper(query);
    MatchingDependsOnLowerQuery(h, Upper(query), query);
    LowerIdempotent(query);
    MatchingDependsOnLowerQuery(h, Lower(query), query);
  }

  // ---------------------------------------------------------------------------
  // Properties relating several operations

  /** Trimming with a limit of 0 or more keeps the newest entry of a non-empty log. */
  lemma TrimKeepsNewest<V>(h: seq<Interaction<V>>, maxHistory: int)
    requires |h| > 0 && maxHistory >= 0
    ensures |Trim(h, maxHistory)| > 0
    ensures Trim(h, maxHistory)[|Trim(h, maxHistory)| - 1] == h[|h| - 1]
  {
    if maxHistory >= 1 && |h| > maxHistory {
      assert Trim(h, maxHistory) == h[|h| - maxHistory..];
    } else {
      assert Trim(h, maxHistory) == h;
    }
  }

  /** The record just added is what `get_last_interaction` returns, unless a negative limit trimmed it away. */
  lemma AddThenGetLast<V>(m: AgentMemory<V>, userInput: string, agentResponse: string,
                          metadata: Option<map<string, V>>, now: string)
    requires m.maxHistory >= 0
    ensures GetLastInteraction(AddInteraction(m, userInput, agentResponse, metadata, now))
            == Some(MakeInteraction(now, userInput, agentResponse, metadata))
    ensures GetSummary(AddInteraction(m, userInput, agentResponse, metadata, now)).newestInteraction == Some(now)
  {
    var it := MakeInteraction(now, userInput, agentResponse, metadata);
    TrimKeepsNewest(m.history + [it], m.maxHistory);
  }

  /** With a limit of 0 nothing is ever trimmed: `history[-0:]` is the whole log. */
  lemma ZeroLimitNeverTrims<V>(m: AgentMemory<V>, userInput: string, agentResponse: string,
                               metadata: Option<map<string, V>>, now: string)
    requires m.maxHistory == 0
    ensures AddInteraction(m, userInput, agentResponse, metadata, now).history
            == m.history + [MakeInteraction(now, userInput, agentResponse, metadata)]
  {
  }

  /** With a negative limit -d, adding drops the d oldest records of the extended log (all of them if it is shorter). */
  lemma NegativeLimitDropsPrefix<V>(m: AgentMemory<V>, userInput: string, agentResponse: string,
                                    metadata: Option<map<string, V>>, now: string)
    requires m.maxHistory < 0
    ensures var h := m.history + [MakeInteraction(now, userInput, agentResponse, metadata)];
            AddInteraction(m, userInput, agentResponse, metadata, now).history
            == h[if -m.maxHistory <= |h| then -m.maxHistory else |h|..]
  {
  }

  /** Context operations: a set key reads back, other keys are unaffected, a missing key yields the default. */
  lemma ContextReadBack<V>(m: AgentMemory<V>, key: string, value: V, other: string, default: V)
    ensures GetContext(SetContext(m, key, value), key, default) == value
    ensures other != key ==> GetContext(SetContext(m, key, value), other, default) == GetContext(m, other, default)
    ensures GetContext(ClearContext(m), other, default) == default
    ensures GetContext(Clear(m), other, default) == default
  {
  }

  /** Adding an interaction keeps every context value readable as before. */
  lemma AddKeepsContext<V>(m: AgentMemory<V>, userInput: string, agentResponse: string,
                           metadata: Option<map<string, V>>, now: string, key: string, default: V)
    ensures GetContext(AddInteraction(m, userInput, agentResponse, metadata, now), key, default)
            == GetContext(m, key, default)
  {
  }

  /** Adding to a full log drops exactly its oldest entry. */
  lemma AddToFullDropsOldest<V>(m: AgentMemory<V>, userInput: string, agentResponse: string,
                                metadata: Option<map<string, V>>, now: string)
    requires m.maxHistory >= 1 && |m.history| == m.maxHistory
    ensures AddInteraction(m, userInput, agentResponse, metadata, now).history
            == m.history[1..] + [MakeInteraction(now, userInput, agentResponse, metadata)]
  {
    var h := m.history + [MakeInteraction(now, userInput, agentResponse, metadata)];
    assert Trim(h, m.maxHistory) == h[1..];
  }

  /** Filling a memory of limit 3 with five interactions keeps the last three, oldest "Input 2". */
  lemma FiveIntoThree()
    ensures var m0 := New<int>(3);
            var m1 := AddInteraction(m0, "Input 0", "Response 0", None, "t0");
            var m2 := AddInteraction(m1, "Input 1", "Response 1", None, "t1");
            var m3 := AddInteraction(m2, "Input 2", "Response 2", None, "t2");
            var m4 := AddInteraction(m3, "Input 3", "Response 3", None, "t3");
            var m5 := AddInteraction(m4, "Input 4", "Response 4", None, "t4");
            |m5.history| == 3 && m5.history[0].userInput == "Input 2"
  {
    var m0 := New<int>(3);
    var m1 := AddInteraction(m0, "Input 0", "Response 0", None, "t0");
    var m2 := AddInteraction(m1, "Input 1", "Response 1", None, "t1");
    var m3 := AddInteraction(m2, "Input 2", "Response 2", None, "t2");
    assert |m3.history| == 3 && m3.history[2].userInput == "Input 2";
    var m4 := AddInteraction(m3, "Input 3", "Response 3", None, "t3");
    AddToFullDropsOldest(m3, "Input 3", "Response 3", None, "t3");
    assert |m4.history| == 3 && m4.history[1].userInput == "Input 2";
    var m5 := AddInteraction(m4, "Input 4", "Response 4", None, "t4");
    AddToFullDropsOldest(m4, "Input 4", "Response 4", None, "t4");
  }
}
