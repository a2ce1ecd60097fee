/** When tag names stay unique, along every interleaving of creations and updates of posts. */
module TagRuns {
  import opened Options
  import opened Tags

  datatype Run = Run(states: seq<State>, steps: seq<Step>)

  ghost predicate IsRun(r: Run): (ok: bool)
    ensures ok ==> |r.states| == |r.steps| + 1
  {
    && |r.states| == |r.steps| + 1
    && r.states[0] == State([], 1, map[], 1, map[])
    && forall i | 0 <= i < |r.steps| ::
         Enabled(r.states[i], r.steps[i]) && r.states[i + 1] == Apply(r.states[i], r.steps[i])
  }

  lemma StepOf(r: Run, k: nat)
    requires IsRun(r) && k < |r.steps|
    ensures Enabled(r.states[k], r.steps[k]) && r.states[k + 1] == Apply(r.states[k], r.steps[k])
  {
    hide Enabled, Apply;
  }

  lemma {:induction false} RunKeeps(r: Run, n: nat)
    requires IsRun(r) && n <= |r.steps|
    ensures Inv(r.states[n])
  {
    hide Apply, Enabled;
    if n > 0 {
      RunKeeps(r, n - 1);
      StepOf(r, n - 1);
      hide Inv, IsRun;
      StepKeeps(r.states[n - 1], r.steps[n - 1]);
    }
  }

  /** What an update under way knows of its beginning. */
  lemma UpdateBegins(s: State, step: Step, req: nat)
    requires Enabled(s, step) && req in Apply(s, step).requests
    requires Apply(s, step).requests[req].Updating? || Apply(s, step).requests[req].TagMissing?
    ensures var q := Apply(s, step).requests[req];
            if req in s.requests
            then && (s.requests[req].Updating? || s.requests[req].TagMissing?)
                 && s.requests[req].post == q.post && s.requests[req].postTags == q.postTags
                 && s.requests[req].names == q.names
            else step == UpdateRead(req, q.post, q.names) && q.post in s.posts && q.postTags == s.posts[q.post]
  {
    hide Finds, FindsAll, MissingNames, NewTags, Reconciled;
  }

  lemma {:induction false} UpdateBegan(r: Run, n: nat, req: nat) returns (k: nat)
    requires IsRun(r) && n <= |r.steps| && req in r.states[n].requests
    requires r.states[n].requests[req].Updating? || r.states[n].requests[req].TagMissing?
    ensures var q := r.states[n].requests[req];
            && k < n && r.steps[k] == UpdateRead(req, q.post, q.names)
            && q.post in r.states[k].posts && q.postTags == r.states[k].posts[q.post]
    decreases n
  {
    assert n > 0;
    StepOf(r, n - 1);
    hide IsRun, Apply, Enabled;
    UpdateBegins(r.states[n - 1], r.steps[n - 1], req);
    if req in r.states[n - 1].requests {
      k := UpdateBegan(r, n - 1, req);
    } else {
      k := n - 1;
    }
  }

  /** Over every interleaving, an update writes exactly the names it was asked for, the tags that the
      post had when the update read it first, in their order; asked for none, it writes those tags. */
  lemma EveryUpdateWritesItsNames(r: Run, n: nat) returns (k: nat)
    requires IsRun(r) && n < |r.steps| && r.steps[n].UpdateWrite?
    ensures k < n && r.steps[k].UpdateRead? && r.steps[k].req == r.steps[n].req
    ensures var post, names := r.steps[k].post, r.steps[k].names;
            && post in r.states[k].posts && post in r.states[n + 1].posts
            && var read, result := r.states[k].posts[post], r.states[n + 1].posts[post];
               && Rows(r.states[n + 1].tags, result)
               && if names == [] then result == read
                  else HaveExactly(result, names) && Named(read, names) <= result
  {
    RunKeeps(r, n);
    StepOf(r, n);
    k := UpdateBegan(r, n, r.steps[n].req);
    hide IsRun, Inv, Rows, HaveExactly, Named, Reconciled;
    UpdateWritesRequestedNames(r.states[n], r.steps[n].req);
  }

  // ----- names

  ghost predicate DistinctNames(tags: seq<Tag>) {
    forall k, l | 0 <= k < l < |tags| :: tags[k].name != tags[l].name
  }

  ghost predicate Distinct(names: seq<string>) {
    forall k, l | 0 <= k < l < |names| :: names[k] != names[l]
  }

  /** The names of the rows that a step saves. */
  ghost function Saved(s: State, step: Step): (names: seq<string>)
    requires Enabled(s, step)
  {
    match step
    case TagSave(req) => [s.requests[req].names[|s.requests[req].found|]]
    case CreateSave(req) => MissingNames(s.requests[req].found, s.requests[req].names)
    case _ => []
  }

  /** The rows that were saved, by whatever request, since the query that did not find the names
      which the step saves. */
  ghost function SavedSince(s: State, step: Step): seq<Tag>
    requires Enabled(s, step)
  {
    if (step.TagSave? || step.CreateSave?) && s.requests[step.req].seen <= |s.tags|
    then s.tags[s.requests[step.req].seen..]
    else []
  }

  /** No other save overtook the step: none of the names it saves was saved since its query. */
  ghost predicate NotOvertaken(s: State, step: Step)
    requires Enabled(s, step)
  {
    forall n | n in Saved(s, step) :: !HasName(SavedSince(s, step), n)
  }

  lemma HasNameSplits(tags: seq<Tag>, seen: nat, n: string)
    requires seen <= |tags|
    ensures HasName(tags, n) <==> HasName(tags[..seen], n) || HasName(tags[seen..], n)
  {
    if k :| 0 <= k < |tags| && tags[k].name == n {
      assert if k < seen then tags[..seen][k].name == n else tags[seen..][k - seen].name == n;
    }
    if k :| 0 <= k < |tags| - seen && tags[seen..][k].name == n {
      assert tags[seen + k].name == n;
    }
  }

  /** A name that a query did not find is in the table when it is saved exactly when another save
      overtook it. */
  lemma FreeIffNotOvertaken(s: State, step: Step)
    requires Inv(s) && Enabled(s, step)
    ensures (forall n | n in Saved(s, step) :: !HasName(s.tags, n)) <==> NotOvertaken(s, step)
  {
    if step.TagSave? || step.CreateSave? {
      var q := s.requests[step.req];
      assert RequestOk(s, q);
      hide Inv, HasName;
      forall n | n in Saved(s, step)
        ensures HasName(s.tags, n) <==> HasName(SavedSince(s, step), n)
      {
        HasNameSplits(s.tags, q.seen, n);
      }
    }
  }

  ghost predicate NamesAre(tags: seq<Tag>, names: seq<string>) {
    |tags| == |names| && forall k | 0 <= k < |names| :: tags[k].name == names[k]
  }

  lemma AppendNamesIff(tags: seq<Tag>, more: seq<Tag>, names: seq<string>)
    requires DistinctNames(tags) && NamesAre(more, names)
    ensures DistinctNames(tags + more) <==> Distinct(names) && forall n | n in names :: !HasName(tags, n)
  {
    var all := tags + more;
    if DistinctNames(all) {
      forall k, l | 0 <= k < l < |names|
        ensures names[k] != names[l]
      {
        assert all[|tags| + k].name != all[|tags| + l].name;
      }
      forall n | n in names
        ensures !HasName(tags, n)
      {
        var l :| 0 <= l < |names| && names[l] == n;
        assert all[|tags| + l].name == n;
        assert forall k | 0 <= k < |tags| :: tags[k] == all[k] && all[k].name != n;
      }
    }
    if Distinct(names) && forall n | n in names :: !HasName(tags, n) {
      assert forall l | 0 <= l < |names| :: names[l] in names;
    }
  }

  lemma SavedAreAppended(s: State, step: Step)
    requires Enabled(s, step)
    ensures s.tags <= Apply(s, step).tags && NamesAre(Apply(s, step).tags[|s.tags|..], Saved(s, step))
  {
    hide Finds, FindsAll, HasName, Reconciled;
  }

  /** A step keeps tag names unique exactly when the names it saves are distinct and no other save
      overtook it; steps that save nothing always do. */
  lemma StepKeepsNamesIff(s: State, step: Step)
    requires Inv(s) && Enabled(s, step) && DistinctNames(s.tags)
    ensures DistinctNames(Apply(s, step).tags) <==> Distinct(Saved(s, step)) && NotOvertaken(s, step)
  {
    var after := Apply(s, step).tags;
    SavedAreAppended(s, step);
    FreeIffNotOvertaken(s, step);
    hide Apply, Enabled, Saved, Inv, NotOvertaken, DistinctNames, Distinct, NamesAre, HasName;
    AppendNamesIff(s.tags, after[|s.tags|..], Saved(s, step));
    assert s.tags + after[|s.tags|..] == after;
  }

  ghost predicate Clean(r: Run, k: nat)
    requires IsRun(r) && k < |r.steps|
  {
    Distinct(Saved(r.states[k], r.steps[k])) && NotOvertaken(r.states[k], r.steps[k])
  }

  lemma PrefixKeepsRepeats(before: seq<Tag>, after: seq<Tag>)
    requires before <= after && DistinctNames(after)
    ensures DistinctNames(before)
  {
    forall k, l | 0 <= k < l < |before|
      ensures before[k].name != before[l].name
    {
      assert after[k].name != after[l].name;
    }
  }

  /** Over every interleaving: tag names are unique exactly when each save so far wrote distinct
      names and was not overtaken between its query and its write. */
  lemma {:induction false} RunKeepsNamesIff(r: Run, n: nat)
    requires IsRun(r) && n <= |r.steps|
    ensures DistinctNames(r.states[n].tags)
       <==> forall k: nat | k < n :: Clean(r, k)
  {
    if n > 0 {
      RunKeeps(r, n - 1);
      StepOf(r, n - 1);
      RunKeepsNamesIff(r, n - 1);
      var s, step := r.states[n - 1], r.steps[n - 1];
      assert Clean(r, n - 1) <==> Distinct(Saved(s, step)) && NotOvertaken(s, step);
      SavedAreAppended(s, step);
      hide IsRun, Inv, Apply, Enabled, Saved, NotOvertaken, Clean, DistinctNames, Distinct;
      if DistinctNames(s.tags) {
        StepKeepsNamesIff(s, step);
      } else if DistinctNames(Apply(s, step).tags) {
        PrefixKeepsRepeats(s.tags, Apply(s, step).tags);
      }
    }
  }

  lemma {:induction false} MissingOfDistinct(tags: seq<Tag>, names: seq<string>)
    requires Distinct(names)
    ensures Distinct(MissingNames(tags, names))
  {
    if names != [] {
      var init, last := names[..|names| - 1], names[|names| - 1];
      MissingOfDistinct(tags, init);
      assert forall k | 0 <= k < |MissingNames(tags, init)| :: MissingNames(tags, init)[k] in init;
    }
  }

  /** In particular, names stay unique in any run in which no tag is saved between a query and the
      save it leads to, and no creation repeats a name. */
  lemma UndisturbedRunKeepsNames(r: Run, n: nat)
    requires IsRun(r) && n <= |r.steps|
    requires forall k: nat | k < n :: SavedSince(r.states[k], r.steps[k]) == []
    requires forall k | 0 <= k < n && r.steps[k].CreateSave? :: Distinct(r.states[k].requests[r.steps[k].req].names)
    ensures DistinctNames(r.states[n].tags)
  {
    forall k: nat | k < n
      ensures Clean(r, k)
    {
      if r.steps[k].CreateSave? {
        var q := r.states[k].requests[r.steps[k].req];
        MissingOfDistinct(q.found, q.names);
      }
      hide Apply;
    }
    RunKeepsNamesIff(r, n);
  }

  // ----- names stored twice

  lemma MissingTwice()
    ensures MissingNames([], ["a", "a"]) == ["a", "a"]
  {
    var names: seq<string> := ["a", "a"];
    assert names[..1] == ["a"] && names[..1][..0] == [];
    assert MissingNames([], names[..1]) == ["a"];
  }

  lemma RepeatGoes(names: seq<string>, saved: seq<Tag>)
    requires names == ["a", "a"] && saved == [Tag(1, "a", true), Tag(2, "a", true)]
    ensures var s, t := State([], 1, map[], 1, map[]), State([], 1, map[], 1, map[1 := TagsMissing(names, [], 0)]);
            && Enabled(s, CreateFind(1, names, [])) && Apply(s, CreateFind(1, names, [])) == t
            && Enabled(t, CreateSave(1))
            && Apply(t, CreateSave(1)) == State(saved, 3, map[], 1, map[1 := Posting(names, saved)])
  {
    hide MissingNames, Named, HasName, Finds;
    MissingTwice();
    assert NewTags(names, 1) == saved && [] + saved == saved;
    var requests := map[1 := TagsMissing(names, [], 0)];
    assert requests[1 := Posting(names, saved)] == map[1 := Posting(names, saved)];
  }

  /** A creation that repeats a new name stores it twice, even if nothing interrupts it. */
  lemma RepeatedNameStoredTwice() returns (r: Run)
    ensures IsRun(r) && |r.steps| == 2 && !DistinctNames(r.states[2].tags)
    ensures SavedSince(r.states[1], r.steps[1]) == []
  {
    var names, saved := ["a", "a"], [Tag(1, "a", true), Tag(2, "a", true)];
    RepeatGoes(names, saved);
    r := Run([State([], 1, map[], 1, map[]), State([], 1, map[], 1, map[1 := TagsMissing(names, [], 0)]),
              State(saved, 3, map[], 1, map[1 := Posting(names, saved)])],
             [CreateFind(1, names, []), CreateSave(1)]);
    hide Apply, Enabled;
    assert r.states[2].tags[0].name == r.states[2].tags[1].name;
  }

  /** A post is created and two updates of it, both wanting one new tag, interleave. */
  ghost function RaceStep(i: nat): Step
    requires i < 8
  {
    if i == 0 then CreateFind(0, [], [])
    else if i == 1 then CreateWrite(0)
    else if i < 4 then UpdateRead(i - 1, 1, ["a"])
    else if i < 6 then TagFind(i - 3, None)
    else TagSave(i - 5)
  }

  ghost function RaceRequests(i: nat): map<nat, Request> {
    var names, reading := ["a"], Updating(1, [], ["a"], []);
    var missing := TagMissing(1, [], names, [], 0);
    if i == 1 then map[0 := Posting([], [])]
    else if i == 3 then map[1 := reading]
    else if i == 4 then map[1 := reading, 2 := reading]
    else if i == 5 then map[1 := missing, 2 := reading]
    else if i == 6 then map[1 := missing, 2 := missing]
    else if i == 7 then map[1 := Updating(1, [], names, [Tag(1, "a", false)]), 2 := missing]
    else if i == 8 then map[1 := Updating(1, [], names, [Tag(1, "a", false)]),
                            2 := Updating(1, [], names, [Tag(2, "a", false)])]
    else map[]
  }

  ghost function RaceState(i: nat): State {
    State(if i < 7 then [] else if i == 7 then [Tag(1, "a", false)] else [Tag(1, "a", false), Tag(2, "a", false)],
          if i < 7 then 1 else if i == 7 then 2 else 3,
          if i < 2 then map[] else map[1 := []], if i < 2 then 1 else 2, RaceRequests(i))
  }

  lemma RaceStarts(i: nat)
    requires i < 4
    ensures Enabled(RaceState(i), RaceStep(i)) && Apply(RaceState(i), RaceStep(i)) == RaceState(i + 1)
  {
    assert i == 1 ==> RaceRequests(1) - {0} == map[];
  }

  lemma RaceFinds(i: nat)
    requires 4 <= i < 6
    ensures Enabled(RaceState(i), RaceStep(i)) && Apply(RaceState(i), RaceStep(i)) == RaceState(i + 1)
  {
  }

  lemma RaceSaves(i: nat)
    requires 6 <= i < 8
    ensures Enabled(RaceState(i), RaceStep(i)) && Apply(RaceState(i), RaceStep(i)) == RaceState(i + 1)
  {
    var tag, q := Tag(i - 5, "a", false), RaceState(i).requests[i - 5];
    assert RaceState(i).tags + [tag] == RaceState(i + 1).tags;
    assert q.found + [tag] == [tag];
    assert RaceRequests(i)[i - 5 := Updating(1, [], ["a"], [tag])] == RaceRequests(i + 1);
  }

  /** Two updates that ask for one new tag, each looking for it before the other saves it: both
      save it. */
  lemma TwoUpdatesStoreNameTwice() returns (r: Run)
    ensures IsRun(r) && |r.steps| == 8 && !DistinctNames(r.states[8].tags)
    ensures forall k | 0 <= k < 8 :: !r.steps[k].CreateSave?
  {
    r := Run(seq(9, i requires 0 <= i < 9 => RaceState(i)), seq(8, i requires 0 <= i < 8 => RaceStep(i)));
    hide Apply, Enabled;
    forall i | 0 <= i < 8
      ensures Enabled(r.states[i], r.steps[i]) && r.states[i + 1] == Apply(r.states[i], r.steps[i])
    {
      if i < 4 {
        RaceStarts(i);
      } else if i < 6 {
        RaceFinds(i);
      } else {
        RaceSaves(i);
      }
    }
    assert r.states[8].tags[0].name == r.states[8].tags[1].name;
  }
}
