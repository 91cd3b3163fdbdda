/**
 * The quest tracker's rules as functions on values: which active quests a
 * task event advances, which of them it completes, and what is left of the
 * active list afterwards.
 */
module QuestRules {
  import opened Records
  import opened Progression

  /** The tag that matches every event. */
  const Wildcard: string := "completion"

  /** An event of type `eventType` advances the quest. */
  predicate Matches(q: Quest, eventType: string)
  {
    q.kind == eventType || q.kind == Wildcard
  }

  /** The quest as the event leaves it: its progress raised by `amount` if the event matches. */
  function Advanced(q: Quest, eventType: string, amount: int): Quest
  {
    if Matches(q, eventType) then q.(progress := q.progress + amount) else q
  }

  /** The event completes the quest: it matches and brings the progress to the target. */
  predicate Completes(q: Quest, eventType: string, amount: int)
  {
    Matches(q, eventType) && q.progress + amount >= q.target
  }

  /** What the event leaves of one active quest: nothing if it completes the quest, the
      advanced quest otherwise. */
  function Left(q: Quest, eventType: string, amount: int): (r: seq<Quest>)
    ensures |r| <= 1
  {
    if Completes(q, eventType, amount) then [] else [Advanced(q, eventType, amount)]
  }

  /** The reward the event earns from one active quest: the quest's reward if it completes it. */
  function Reward(q: Quest, eventType: string, amount: int): (r: seq<int>)
    ensures |r| + |Left(q, eventType, amount)| == 1
  {
    if Completes(q, eventType, amount) then [q.reward] else []
  }

  /** The active list after an event: every quest advanced, the completed ones dropped, in order. */
  function Survivors(qs: seq<Quest>, eventType: string, amount: int): seq<Quest>
    decreases |qs|
  {
    if qs == [] then []
    else
      var last := qs[|qs| - 1];
      var kept := Survivors(qs[..|qs| - 1], eventType, amount);
      if Completes(last, eventType, amount) then kept else kept + [Advanced(last, eventType, amount)]
  }

  /** The rewards an event earns, one per completed quest, in list order. */
  function RewardsEarned(qs: seq<Quest>, eventType: string, amount: int): seq<int>
    decreases |qs|
  {
    if qs == [] then []
    else
      var last := qs[|qs| - 1];
      var earned := RewardsEarned(qs[..|qs| - 1], eventType, amount);
      if Completes(last, eventType, amount) then earned + [last.reward] else earned
  }

  /** No quest of the list carries the id. */
  predicate Lacks(qs: seq<Quest>, id: int)
  {
    forall k :: 0 <= k < |qs| ==> qs[k].id != id
  }

  /** No two quests of the list share an id. */
  predicate DistinctIds(qs: seq<Quest>)
  {
    forall i, j :: 0 <= i < j < |qs| ==> qs[i].id != qs[j].id
  }

  /** Every id of the list is below `bound`. */
  predicate IdsBelow(qs: seq<Quest>, bound: int)
  {
    forall k :: 0 <= k < |qs| ==> qs[k].id < bound
  }

  /** The position of the first quest with the given id. */
  function QuestIndex(qs: seq<Quest>, id: int): (r: Option<nat>)
    ensures r.None? ==> Lacks(qs, id)
    ensures r.Some? ==> r.value < |qs| && qs[r.value].id == id && Lacks(qs[..r.value], id)
    decreases |qs|
  {
    if qs == [] then None
    else if qs[0].id == id then Some(0)
    else
      var rest := QuestIndex(qs[1..], id);
      if rest.None? then None else Some(rest.value + 1)
  }

  /** The list without the quests carrying the given id, the others kept in order. */
  function WithoutId(qs: seq<Quest>, id: int): (r: seq<Quest>)
    ensures Lacks(r, id)
    ensures |r| <= |qs|
    decreases |qs|
  {
    if qs == [] then []
    else if qs[0].id == id then WithoutId(qs[1..], id)
    else [qs[0]] + WithoutId(qs[1..], id)
  }

  /** The list with the progress of the quests carrying the given id replaced. */
  function WithProgress(qs: seq<Quest>, id: int, progress: int): (r: seq<Quest>)
    ensures |r| == |qs|
  {
    seq(|qs|, k requires 0 <= k < |qs| => if qs[k].id == id then qs[k].(progress := progress) else qs[k])
  }

  // ---------------------------------------------------------------------
  // What an event does to the active list

  /** Every active quest either survives the event or earns its reward, never both and never twice. */
  lemma {:induction false} SurvivorOrRewarded(qs: seq<Quest>, eventType: string, amount: int)
    ensures |Survivors(qs, eventType, amount)| + |RewardsEarned(qs, eventType, amount)| == |qs|
    decreases |qs|
  {
    if qs != [] {
      SurvivorOrRewarded(qs[..|qs| - 1], eventType, amount);
    }
  }

  /** A quest the event does not complete stays active, advanced if the event matches it and
      unchanged otherwise. */
  lemma {:induction false} NotCompletedStays(qs: seq<Quest>, eventType: string, amount: int, i: int)
    requires 0 <= i < |qs| && !Completes(qs[i], eventType, amount)
    ensures Advanced(qs[i], eventType, amount) in Survivors(qs, eventType, amount)
    ensures !Matches(qs[i], eventType) ==> qs[i] in Survivors(qs, eventType, amount)
    decreases |qs|
  {
    if i < |qs| - 1 {
      NotCompletedStays(qs[..|qs| - 1], eventType, amount, i);
    }
  }

  /** The survivors are advanced copies of the quests, so an id the list lacks they lack too. */
  lemma {:induction false} SurvivorsLack(qs: seq<Quest>, eventType: string, amount: int, id: int)
    requires Lacks(qs, id)
    ensures Lacks(Survivors(qs, eventType, amount), id)
    decreases |qs|
  {
    if qs != [] {
      SurvivorsLack(qs[..|qs| - 1], eventType, amount, id);
    }
  }

  /** Distinct ids stay distinct among the survivors. */
  lemma {:induction false} SurvivorsDistinct(qs: seq<Quest>, eventType: string, amount: int)
    requires DistinctIds(qs)
    ensures DistinctIds(Survivors(qs, eventType, amount))
    decreases |qs|
  {
    if qs != [] {
      var init, last := qs[..|qs| - 1], qs[|qs| - 1];
      SurvivorsDistinct(init, eventType, amount);
      if !Completes(last, eventType, amount) {
        SurvivorsLack(init, eventType, amount, last.id);
        DistinctAppend(Survivors(init, eventType, amount), Advanced(last, eventType, amount));
      }
    }
  }

  /** A quest the event completes leaves the active list (ids being distinct). */
  lemma CompletedLeaves(qs: seq<Quest>, eventType: string, amount: int, i: int)
    requires DistinctIds(qs)
    requires 0 <= i < |qs| && Completes(qs[i], eventType, amount)
    ensures Lacks(Survivors(qs, eventType, amount), qs[i].id)
  {
    var pre, post := qs[..i + 1], qs[i + 1..];
    assert qs == pre + post;
    SurvivorsSplit(pre, post, eventType, amount);
    assert pre[..i] == qs[..i];
    SurvivorsLack(qs[..i], eventType, amount, qs[i].id);
    SurvivorsLack(post, eventType, amount, qs[i].id);
  }

  /** A survivor the event matched is still short of its target. */
  lemma {:induction false} SurvivorsShortOfTarget(qs: seq<Quest>, eventType: string, amount: int)
    ensures forall s :: s in Survivors(qs, eventType, amount) && Matches(s, eventType) ==> s.progress < s.target
    decreases |qs|
  {
    if qs != [] {
      SurvivorsShortOfTarget(qs[..|qs| - 1], eventType, amount);
    }
  }

  /** Events split over a concatenation. */
  lemma {:induction false} SurvivorsSplit(a: seq<Quest>, b: seq<Quest>, eventType: string, amount: int)
    ensures Survivors(a + b, eventType, amount) == Survivors(a, eventType, amount) + Survivors(b, eventType, amount)
    ensures RewardsEarned(a + b, eventType, amount) == RewardsEarned(a, eventType, amount) + RewardsEarned(b, eventType, amount)
    decreases |b|
  {
    if b == [] {
      assert a + b == a;
    } else {
      var init := b[..|b| - 1];
      assert (a + b)[..|a + b| - 1] == a + init;
      assert (a + b)[|a + b| - 1] == b[|b| - 1];
      SurvivorsSplit(a, init, eventType, amount);
    }
  }

  /** An event on a one-quest list: the quest is either kept, advanced, or dropped with its reward. */
  lemma OneQuestEvent(q: Quest, eventType: string, amount: int)
    ensures Survivors([q], eventType, amount) == if Completes(q, eventType, amount) then [] else [Advanced(q, eventType, amount)]
    ensures RewardsEarned([q], eventType, amount) == if Completes(q, eventType, amount) then [q.reward] else []
  {
    assert [q][..0] == [];
  }

  /** A quest with target 3 and reward 75, pursued by matching events, is completed by the third
      event, which earns the reward once; a fourth event finds nothing to advance. */
  lemma ThreeStepQuest(q: Quest)
    requires q.kind == Wildcard && q.progress == 0 && q.target == 3 && q.reward == 75
    ensures var one := Survivors([q], Wildcard, 1);
      var two := Survivors(one, Wildcard, 1);
      && one == [q.(progress := 1)] && RewardsEarned([q], Wildcard, 1) == []
      && two == [q.(progress := 2)] && RewardsEarned(one, Wildcard, 1) == []
      && Survivors(two, Wildcard, 1) == [] && RewardsEarned(two, Wildcard, 1) == [75]
      && Survivors([], Wildcard, 1) == [] && RewardsEarned([], Wildcard, 1) == []
  {
    OneQuestEvent(q, Wildcard, 1);
    OneQuestEvent(q.(progress := 1), Wildcard, 1);
    OneQuestEvent(q.(progress := 2), Wildcard, 1);
  }

  // ---------------------------------------------------------------------
  // Id bookkeeping

  lemma DistinctAppend(qs: seq<Quest>, x: Quest)
    requires DistinctIds(qs) && Lacks(qs, x.id)
    ensures DistinctIds(qs + [x])
  {
  }

  lemma DistinctConcat(a: seq<Quest>, b: seq<Quest>)
    requires DistinctIds(a) && DistinctIds(b)
    requires forall i, j :: 0 <= i < |a| && 0 <= j < |b| ==> a[i].id != b[j].id
    ensures DistinctIds(a + b)
  {
    var r := a + b;
    forall i, j | 0 <= i < j < |r|
      ensures r[i].id != r[j].id
    {
      if j < |a| {
        assert r[i] == a[i] && r[j] == a[j];
      } else if i >= |a| {
        assert r[i] == b[i - |a|] && r[j] == b[j - |a|];
      } else {
        assert r[i] == a[i] && r[j] == b[j - |a|];
      }
    }
  }

  /** Removing an id keeps the remaining ids distinct. */
  lemma {:induction false} WithoutIdDistinct(qs: seq<Quest>, id: int)
    requires DistinctIds(qs)
    ensures DistinctIds(WithoutId(qs, id))
    decreases |qs|
  {
    if qs != [] {
      var tail := qs[1..];
      WithoutIdDistinct(tail, id);
      if qs[0].id != id {
        var rest := WithoutId(tail, id);
        assert Lacks(tail, qs[0].id);
        WithoutIdLacks(tail, id, qs[0].id);
        DistinctConcat([qs[0]], rest);
      }
    }
  }

  /** Removing an id removes no other id from what the list lacks. */
  lemma {:induction false} WithoutIdLacks(qs: seq<Quest>, id: int, other: int)
    requires Lacks(qs, other)
    ensures Lacks(WithoutId(qs, id), other)
    decreases |qs|
  {
    if qs != [] {
      WithoutIdLacks(qs[1..], id, other);
    }
  }

  /** Removing an id keeps exactly the quests with another id. */
  lemma {:induction false} WithoutIdMembers(qs: seq<Quest>, id: int, q: Quest)
    ensures q in WithoutId(qs, id) <==> q in qs && q.id != id
    decreases |qs|
  {
    if qs != [] {
      WithoutIdMembers(qs[1..], id, q);
      assert q in qs <==> q == qs[0] || q in qs[1..] by { assert qs == [qs[0]] + qs[1..]; }
    }
  }

  /** Removing an id that the list does not carry changes nothing. */
  lemma {:induction false} WithoutAbsentId(qs: seq<Quest>, id: int)
    requires Lacks(qs, id)
    ensures WithoutId(qs, id) == qs
    decreases |qs|
  {
    if qs != [] {
      WithoutAbsentId(qs[1..], id);
      assert qs == [qs[0]] + qs[1..];
    }
  }

  lemma {:induction false} WithoutIdSplit(a: seq<Quest>, b: seq<Quest>, id: int)
    ensures WithoutId(a + b, id) == WithoutId(a, id) + WithoutId(b, id)
    decreases |a|
  {
    if a == [] {
      assert a + b == b;
    } else {
      assert (a + b)[0] == a[0];
      assert (a + b)[1..] == a[1..] + b;
      WithoutIdSplit(a[1..], b, id);
    }
  }

  /** Removing the id of a quest that no other quest shares removes exactly that quest and
      keeps the others in order. */
  lemma RemoveMiddle(pre: seq<Quest>, q: Quest, post: seq<Quest>)
    requires Lacks(pre, q.id) && Lacks(post, q.id)
    ensures WithoutId(pre + [q] + post, q.id) == pre + post
  {
    WithoutIdSplit(pre + [q], post, q.id);
    WithoutIdSplit(pre, [q], q.id);
    WithoutAbsentId(pre, q.id);
    WithoutAbsentId(post, q.id);
    assert [q][1..] == [];
    assert WithoutId([q], q.id) == [];
    assert WithoutId(pre + [q], q.id) == pre;
  }

  /** Replacing the progress of an id carried only by the middle quest changes only that quest. */
  lemma WithProgressMiddle(pre: seq<Quest>, q: Quest, post: seq<Quest>, progress: int)
    requires Lacks(pre, q.id) && Lacks(post, q.id)
    ensures WithProgress(pre + [q] + post, q.id, progress) == pre + [q.(progress := progress)] + post
  {
    var s := pre + [q] + post;
    var r := WithProgress(s, q.id, progress);
    var t := pre + [q.(progress := progress)] + post;
    forall k | 0 <= k < |s|
      ensures r[k] == t[k]
    {
      if k < |pre| {
        assert s[k] == pre[k];
      } else if k > |pre| {
        assert s[k] == post[k - |pre| - 1];
      }
    }
  }

  /** While the event walks the list, the quest at position i is the only one with its id among
      the survivors so far and the quests still to visit, and these together keep distinct ids. */
  lemma WalkStep(qs: seq<Quest>, i: int, eventType: string, amount: int)
    requires DistinctIds(qs) && 0 <= i < |qs|
    ensures Lacks(Survivors(qs[..i], eventType, amount), qs[i].id)
    ensures Lacks(qs[i + 1..], qs[i].id)
    ensures var kept := Survivors(qs[..i], eventType, amount);
      kept + qs[i..] == kept + [qs[i]] + qs[i + 1..]
  {
    assert qs[i..] == [qs[i]] + qs[i + 1..];
    assert Lacks(qs[..i], qs[i].id);
    SurvivorsLack(qs[..i], eventType, amount, qs[i].id);
    var post := qs[i + 1..];
    forall j | 0 <= j < |post| ensures post[j].id != qs[i].id {
      assert post[j] == qs[i + 1 + j];
    }
  }

  lemma WalkDistinct(qs: seq<Quest>, i: int, eventType: string, amount: int)
    requires DistinctIds(qs) && 0 <= i <= |qs|
    ensures DistinctIds(Survivors(qs[..i], eventType, amount) + qs[i..])
  {
    var kept, post := Survivors(qs[..i], eventType, amount), qs[i..];
    SurvivorsDistinct(qs[..i], eventType, amount);
    assert DistinctIds(post) by {
      forall a, b | 0 <= a < b < |post| ensures post[a].id != post[b].id {
        assert post[a] == qs[i + a] && post[b] == qs[i + b];
      }
    }
    forall j | 0 <= j < |post|
      ensures Lacks(kept, post[j].id)
    {
      assert post[j] == qs[i + j];
      assert Lacks(qs[..i], post[j].id);
      SurvivorsLack(qs[..i], eventType, amount, post[j].id);
    }
    DistinctConcat(kept, post);
  }

  /** Replacing progress keeps the ids, so it keeps them distinct. */
  lemma WithProgressDistinct(qs: seq<Quest>, id: int, progress: int)
    requires DistinctIds(qs)
    ensures DistinctIds(WithProgress(qs, id, progress))
  {
    var r := WithProgress(qs, id, progress);
    forall i, j | 0 <= i < j < |r| ensures r[i].id != r[j].id {
      assert r[i].id == qs[i].id && r[j].id == qs[j].id;
    }
  }

  /** One more visited quest: what the event leaves of it joins the survivors, and what it
      earns joins the rewards. */
  lemma WalkAdvance(qs: seq<Quest>, i: int, eventType: string, amount: int)
    requires 0 <= i < |qs|
    ensures Survivors(qs[..i + 1], eventType, amount) == Survivors(qs[..i], eventType, amount) + Left(qs[i], eventType, amount)
    ensures RewardsEarned(qs[..i + 1], eventType, amount) == RewardsEarned(qs[..i], eventType, amount) + Reward(qs[i], eventType, amount)
  {
    assert qs[..i + 1][..i] == qs[..i];
    assert Survivors(qs[..i], eventType, amount) + [] == Survivors(qs[..i], eventType, amount);
    assert RewardsEarned(qs[..i], eventType, amount) + [] == RewardsEarned(qs[..i], eventType, amount);
  }
}
