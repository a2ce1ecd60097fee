/** Tags of blog posts: found or created by name, and reconciled with a request.

    Every `await` ends a step, so steps of other requests may come between the query for a tag and
    its save.  No column of the tag table but the id is unique. */
module Tags {
  import opened Filters
  import opened Options

  datatype Tag = Tag(id: int, name: string, published: bool)

  /** A request between two of its steps.  An absent list of names is the empty one.  `seen` is how
      many rows the tag table had at the query that did not find a name. */
  datatype Request =
    | Updating(post: int, postTags: seq<Tag>, names: seq<string>, found: seq<Tag>)
    | TagMissing(post: int, postTags: seq<Tag>, names: seq<string>, found: seq<Tag>, seen: nat)
    | TagsMissing(names: seq<string>, found: seq<Tag>, seen: nat)
    | Posting(names: seq<string>, found: seq<Tag>)

  /** The tag table, the tags of each post, the next generated ids, and the requests under way. */
  datatype State = State(
    tags: seq<Tag>, nextId: int, posts: map<int, seq<Tag>>, nextPost: int, requests: map<nat, Request>)

  datatype Step =
    | UpdateRead(req: nat, post: int, names: seq<string>)
    | TagFind(req: nat, tag: Option<Tag>)
    | TagSave(req: nat)
    | UpdateWrite(req: nat)
    | CreateFind(req: nat, names: seq<string>, found: seq<Tag>)
    | CreateSave(req: nat)
    | CreateWrite(req: nat)

  // ----- queries

  predicate HasName(tags: seq<Tag>, name: string) {
    exists k :: 0 <= k < |tags| && tags[k].name == name
  }

  predicate HasId(tags: seq<Tag>, id: int) {
    exists k :: 0 <= k < |tags| && tags[k].id == id
  }

  /** The tags whose name is in the list. */
  function Named(tags: seq<Tag>, names: seq<string>): (r: seq<Tag>)
    ensures forall t :: t in r <==> t in tags && t.name in names
  {
    if tags == [] then []
    else Named(tags[..|tags| - 1], names) + if tags[|tags| - 1].name in names then [tags[|tags| - 1]] else []
  }

  /** The names that no tag of the list has, repeats included. */
  function MissingNames(tags: seq<Tag>, names: seq<string>): (r: seq<string>)
    ensures forall n :: n in r <==> n in names && !HasName(tags, n)
  {
    if names == [] then []
    else
      MissingNames(tags, names[..|names| - 1])
      + if HasName(tags, names[|names| - 1]) then [] else [names[|names| - 1]]
  }

  ghost predicate DistinctIds(tags: seq<Tag>) {
    forall k, l | 0 <= k < l < |tags| :: tags[k].id != tags[l].id
  }

  /** What a query for one name returns: any row that has it, none only if none does. */
  ghost predicate Finds(tags: seq<Tag>, name: string, tag: Option<Tag>) {
    match tag
    case Some(t) => t in tags && t.name == name
    case None => !HasName(tags, name)
  }

  /** What a query for a list of names returns: the rows that have one of them, in some order. */
  ghost predicate FindsAll(tags: seq<Tag>, names: seq<string>, found: seq<Tag>) {
    DistinctIds(found) && forall t :: t in found <==> t in tags && t.name in names
  }

  // ----- the steps

  /** Adds the tags whose id is not there yet. */
  ghost function Push(tags: seq<Tag>, more: seq<Tag>): seq<Tag> {
    if more == [] then tags
    else
      var before := Push(tags, more[..|more| - 1]);
      if HasId(before, more[|more| - 1].id) then before else before + [more[|more| - 1]]
  }

  /** The tags a post ends up with: it keeps those that are requested and gains the others. */
  ghost function Reconciled(postTags: seq<Tag>, names: seq<string>, found: seq<Tag>): seq<Tag> {
    if names == [] then postTags else Push(Named(postTags, names), found)
  }

  /** New rows for a list of names. */
  ghost function NewTags(names: seq<string>, nextId: int): (r: seq<Tag>)
    ensures |r| == |names| && forall k | 0 <= k < |r| :: r[k] == Tag(nextId + k, names[k], true)
  {
    seq(|names|, k requires 0 <= k < |names| => Tag(nextId + k, names[k], true))
  }

  ghost predicate Enabled(s: State, step: Step) {
    match step
    case UpdateRead(req, _, _) => req !in s.requests
    case TagFind(req, tag) =>
      && req in s.requests && s.requests[req].Updating?
      && var q := s.requests[req]; |q.found| < |q.names| && Finds(s.tags, q.names[|q.found|], tag)
    case TagSave(req) =>
      req in s.requests && s.requests[req].TagMissing? && |s.requests[req].found| < |s.requests[req].names|
    case UpdateWrite(req) =>
      req in s.requests && s.requests[req].Updating? && |s.requests[req].found| == |s.requests[req].names|
    case CreateFind(req, names, found) => req !in s.requests && FindsAll(s.tags, names, found)
    case CreateSave(req) => req in s.requests && s.requests[req].TagsMissing?
    case CreateWrite(req) => req in s.requests && s.requests[req].Posting?
  }

  ghost function Apply(s: State, step: Step): State
    requires Enabled(s, step)
  {
    match step
    case UpdateRead(req, post, names) =>
      if post in s.posts then s.(requests := s.requests[req := Updating(post, s.posts[post], names, [])]) else s
    case TagFind(req, tag) =>
      var q := s.requests[req];
      s.(requests := s.requests[req :=
        if tag.Some? then Updating(q.post, q.postTags, q.names, q.found + [tag.value])
        else TagMissing(q.post, q.postTags, q.names, q.found, |s.tags|)])
    case TagSave(req) =>
      var q := s.requests[req];
      var tag := Tag(s.nextId, q.names[|q.found|], false);
      s.(tags := s.tags + [tag], nextId := s.nextId + 1,
         requests := s.requests[req := Updating(q.post, q.postTags, q.names, q.found + [tag])])
    case UpdateWrite(req) =>
      var q := s.requests[req];
      s.(posts := s.posts[q.post := Reconciled(q.postTags, q.names, q.found)], requests := s.requests - {req})
    case CreateFind(req, names, found) =>
      s.(requests := s.requests[req :=
        if MissingNames(found, names) == [] then Posting(names, found) else TagsMissing(names, found, |s.tags|)])
    case CreateSave(req) =>
      var q := s.requests[req];
      var saved := NewTags(MissingNames(q.found, q.names), s.nextId);
      s.(tags := s.tags + saved, nextId := s.nextId + |saved|,
         requests := s.requests[req := Posting(q.names, q.found + saved)])
    case CreateWrite(req) =>
      s.(posts := s.posts[s.nextPost := s.requests[req].found], nextPost := s.nextPost + 1,
         requests := s.requests - {req})
  }

  // ----- what every step keeps

  /** Rows of the table, none twice. */
  ghost predicate Rows(tags: seq<Tag>, some: seq<Tag>) {
    DistinctIds(some) && forall t | t in some :: t in tags
  }

  /** The tags have the names of the list and no others. */
  ghost predicate HaveExactly(tags: seq<Tag>, names: seq<string>) {
    (forall t | t in tags :: t.name in names) && (forall n | n in names :: HasName(tags, n))
  }

  /** The tags found so far are rows with the first names of the request, one by one. */
  ghost predicate FoundInTurn(tags: seq<Tag>, names: seq<string>, found: seq<Tag>) {
    |found| <= |names| && forall k | 0 <= k < |found| :: found[k] in tags && found[k].name == names[k]
  }

  ghost predicate RequestOk(s: State, q: Request) {
    match q
    case Updating(post, postTags, names, found) =>
      post < s.nextPost && Rows(s.tags, postTags) && FoundInTurn(s.tags, names, found)
    case TagMissing(post, postTags, names, found, seen) =>
      && post < s.nextPost && Rows(s.tags, postTags) && FoundInTurn(s.tags, names, found)
      && |found| < |names| && seen <= |s.tags| && !HasName(s.tags[..seen], names[|found|])
    case TagsMissing(names, found, seen) =>
      && Rows(s.tags, found) && (forall t | t in found :: t.name in names)
      && seen <= |s.tags| && forall n | n in MissingNames(found, names) :: !HasName(s.tags[..seen], n)
    case Posting(names, found) => Rows(s.tags, found) && HaveExactly(found, names)
  }

  ghost predicate IdsOk(tags: seq<Tag>, nextId: int) {
    DistinctIds(tags) && forall k | 0 <= k < |tags| :: tags[k].id < nextId
  }

  ghost predicate Inv(s: State) {
    && IdsOk(s.tags, s.nextId)
    && (forall p | p in s.posts :: p < s.nextPost && Rows(s.tags, s.posts[p]))
    && (forall req | req in s.requests :: RequestOk(s, s.requests[req]))
  }

  /** Saves only add rows. */
  ghost predicate Grows(s: State, t: State) {
    s.tags <= t.tags && s.nextPost <= t.nextPost
  }

  lemma RowsGrow(before: seq<Tag>, after: seq<Tag>, some: seq<Tag>)
    requires before <= after && Rows(before, some)
    ensures Rows(after, some)
  {
  }

  /** What a request has found stays true as the tables grow. */
  lemma GrowthKeepsRequest(s: State, t: State, q: Request)
    requires Grows(s, t) && RequestOk(s, q)
    ensures RequestOk(t, q)
  {
    hide HasName, HaveExactly, DistinctIds;
    if q.TagMissing? || q.TagsMissing? {
      assert t.tags[..q.seen] == s.tags[..q.seen];
    }
  }

  lemma AppendKeepsIds(tags: seq<Tag>, more: seq<Tag>, nextId: int)
    requires IdsOk(tags, nextId)
    requires forall k | 0 <= k < |more| :: more[k].id == nextId + k
    ensures IdsOk(tags + more, nextId + |more|)
  {
  }

  lemma {:induction false} NamedIsDistinct(tags: seq<Tag>, names: seq<string>)
    requires DistinctIds(tags)
    ensures DistinctIds(Named(tags, names))
  {
    if tags != [] {
      var init, last := tags[..|tags| - 1], tags[|tags| - 1];
      NamedIsDistinct(init, names);
      assert forall k | 0 <= k < |Named(init, names)| :: Named(init, names)[k] in init;
      assert forall x | x in init :: x.id != last.id;
    }
  }

  lemma {:induction false} PushAddsMissing(tags: seq<Tag>, more: seq<Tag>)
    requires DistinctIds(tags)
    ensures DistinctIds(Push(tags, more)) && tags <= Push(tags, more)
    ensures forall x | x in Push(tags, more) :: x in tags || x in more
    ensures forall x | x in more :: HasId(Push(tags, more), x.id)
  {
    if more != [] {
      var init, last := more[..|more| - 1], more[|more| - 1];
      PushAddsMissing(tags, init);
      var before, after := Push(tags, init), Push(tags, more);
      assert more == init + [last];
      forall x | x in more
        ensures HasId(after, x.id)
      {
        if x in init {
          var k :| 0 <= k < |before| && before[k].id == x.id;
          assert after[k] == before[k];
        } else if !HasId(before, last.id) {
          assert after[|before|] == last;
        }
      }
    }
  }

  lemma SameIdSameTag(tags: seq<Tag>, x: Tag, y: Tag)
    requires DistinctIds(tags) && x in tags && y in tags && x.id == y.id
    ensures x == y
  {
  }

  lemma ReconciledAreRows(tags: seq<Tag>, postTags: seq<Tag>, names: seq<string>, found: seq<Tag>)
    requires Rows(tags, postTags) && FoundInTurn(tags, names, found)
    ensures var result := Push(Named(postTags, names), found);
            Rows(tags, result) && Named(postTags, names) <= result && forall t | t in result :: t.name in names
  {
    NamedIsDistinct(postTags, names);
    PushAddsMissing(Named(postTags, names), found);
    hide Named, Push;
    forall t | t in found
      ensures t in tags && t.name in names
    {
      var k :| 0 <= k < |found| && found[k] == t;
    }
  }

  lemma ReconciledHasName(tags: seq<Tag>, postTags: seq<Tag>, names: seq<string>, found: seq<Tag>, n: string)
    requires DistinctIds(tags) && Rows(tags, postTags) && FoundInTurn(tags, names, found)
    requires |found| == |names| && n in names
    ensures HasName(Push(Named(postTags, names), found), n)
  {
    ReconciledAreRows(tags, postTags, names, found);
    NamedIsDistinct(postTags, names);
    PushAddsMissing(Named(postTags, names), found);
    var result := Push(Named(postTags, names), found);
    hide Named, Push;
    var j :| 0 <= j < |names| && names[j] == n;
    assert found[j] in found;
    var k :| 0 <= k < |result| && result[k].id == found[j].id;
    SameIdSameTag(tags, result[k], found[j]);
  }

  /** Whatever other requests do meanwhile, an update with names leaves the post with exactly those
      names, no tag twice, and its surviving tags first, in their old order; one without names
      leaves the tags it read. */
  lemma UpdateWritesRequestedNames(s: State, req: nat)
    requires Inv(s) && Enabled(s, UpdateWrite(req))
    ensures var q, result := s.requests[req], Apply(s, UpdateWrite(req)).posts[s.requests[req].post];
            && Rows(s.tags, result)
            && if q.names == [] then result == q.postTags
               else HaveExactly(result, q.names) && Named(q.postTags, q.names) <= result
  {
    var q := s.requests[req];
    assert RequestOk(s, q);
    if q.names != [] {
      ReconciledAreRows(s.tags, q.postTags, q.names, q.found);
      forall n | n in q.names
        ensures HasName(Push(Named(q.postTags, q.names), q.found), n)
      {
        ReconciledHasName(s.tags, q.postTags, q.names, q.found, n);
      }
    }
    hide Inv, Named, Push, HasName, DistinctIds;
  }

  /** A creation leaves the new post with exactly the requested names and no tag twice. */
  lemma CreateWritesRequestedNames(s: State, req: nat)
    requires Inv(s) && Enabled(s, CreateWrite(req))
    ensures var result := Apply(s, CreateWrite(req)).posts[s.nextPost];
            Rows(s.tags, result) && HaveExactly(result, s.requests[req].names)
    ensures s.nextPost !in s.posts
  {
    assert RequestOk(s, s.requests[req]);
  }

  /** What a step hands on to the next step of its own request. */
  lemma TagFindKeeps(s: State, req: nat, tag: Option<Tag>)
    requires Inv(s) && Enabled(s, TagFind(req, tag))
    ensures RequestOk(Apply(s, TagFind(req, tag)), Apply(s, TagFind(req, tag)).requests[req])
  {
    assert RequestOk(s, s.requests[req]);
    assert s.tags[..|s.tags|] == s.tags;
    hide DistinctIds;
  }

  lemma TagSaveKeeps(s: State, req: nat)
    requires Inv(s) && Enabled(s, TagSave(req))
    ensures var t := Apply(s, TagSave(req)); RequestOk(t, t.requests[req]) && IdsOk(t.tags, t.nextId)
  {
    var t, q := Apply(s, TagSave(req)), s.requests[req];
    assert RequestOk(s, q);
    var tag := Tag(s.nextId, q.names[|q.found|], false);
    AppendKeepsIds(s.tags, [tag], s.nextId);
    RowsGrow(s.tags, t.tags, q.postTags);
    assert t.tags[|s.tags|] == tag;
    hide DistinctIds;
  }

  lemma CreateFindKeeps(s: State, req: nat, names: seq<string>, found: seq<Tag>)
    requires Inv(s) && Enabled(s, CreateFind(req, names, found))
    ensures RequestOk(Apply(s, CreateFind(req, names, found)), Apply(s, CreateFind(req, names, found)).requests[req])
  {
    assert s.tags[..|s.tags|] == s.tags;
    forall n | n in names && HasName(s.tags, n)
      ensures HasName(found, n)
    {
      var k :| 0 <= k < |s.tags| && s.tags[k].name == n;
      assert s.tags[k] in found;
    }
    hide DistinctIds, Inv, HasName;
  }

  lemma SavedRows(tags: seq<Tag>, nextId: int, names: seq<string>, found: seq<Tag>)
    requires IdsOk(tags, nextId) && Rows(tags, found) && forall t | t in found :: t.name in names
    ensures var saved := NewTags(MissingNames(found, names), nextId);
            && IdsOk(tags + saved, nextId + |saved|) && Rows(tags + saved, found + saved)
            && HaveExactly(found + saved, names)
  {
    var missing := MissingNames(found, names);
    var saved := NewTags(missing, nextId);
    AppendKeepsIds(tags, saved, nextId);
    forall k, l | 0 <= k < |found| && 0 <= l < |saved|
      ensures found[k].id != saved[l].id
    {
      assert found[k] in found;
    }
    forall t | t in saved
      ensures t.name in names
    {
      var k :| 0 <= k < |saved| && saved[k] == t;
      assert missing[k] in missing;
    }
    forall n | n in names
      ensures HasName(found + saved, n)
    {
      if n in missing {
        var k :| 0 <= k < |missing| && missing[k] == n;
        assert (found + saved)[|found| + k].name == n;
      } else {
        var k :| 0 <= k < |found| && found[k].name == n;
        assert (found + saved)[k].name == n;
      }
    }
  }

  lemma CreateSaveKeeps(s: State, req: nat)
    requires Inv(s) && Enabled(s, CreateSave(req))
    ensures var t := Apply(s, CreateSave(req)); RequestOk(t, t.requests[req]) && IdsOk(t.tags, t.nextId)
  {
    var q := s.requests[req];
    assert RequestOk(s, q);
    hide Rows, HaveExactly, IdsOk, NewTags, MissingNames, HasName, Finds, FindsAll, Push, Named;
    SavedRows(s.tags, s.nextId, q.names, q.found);
    hide Inv;
  }

  /** The request whose step it is may go on, and the ids stay in order. */
  lemma OwnRequestKeeps(s: State, step: Step)
    requires Inv(s) && Enabled(s, step)
    ensures var t := Apply(s, step);
            && Grows(s, t) && IdsOk(t.tags, t.nextId)
            && (step.req in t.requests ==> RequestOk(t, t.requests[step.req]))
            && (forall q | q in t.requests && q != step.req :: q in s.requests && t.requests[q] == s.requests[q])
  {
    match step
    case UpdateRead(req, post, names) =>
      if post in s.posts {
        assert Rows(s.tags, s.posts[post]);
      }
    case TagFind(req, tag) => TagFindKeeps(s, req, tag);
    case TagSave(req) => TagSaveKeeps(s, req);
    case CreateFind(req, names, found) => CreateFindKeeps(s, req, names, found);
    case CreateSave(req) => CreateSaveKeeps(s, req);
    case _ =>
  }

  lemma PostsKeep(s: State, step: Step, p: int)
    requires Inv(s) && Enabled(s, step) && p in Apply(s, step).posts
    ensures p < Apply(s, step).nextPost && Rows(Apply(s, step).tags, Apply(s, step).posts[p])
  {
    var t := Apply(s, step);
    if step.UpdateWrite? {
      UpdateWritesRequestedNames(s, step.req);
      assert RequestOk(s, s.requests[step.req]);
    } else if step.CreateWrite? {
      CreateWritesRequestedNames(s, step.req);
    }
    hide Rows, RequestOk, Finds, FindsAll, IdsOk;
    if p in s.posts && t.posts[p] == s.posts[p] {
      RowsGrow(s.tags, t.tags, s.posts[p]);
    }
  }

  /** Any step, of any request, keeps ids distinct, the tags of every post rows of the table, none
      twice, and what the other requests have found; and it removes no tag. */
  lemma StepKeeps(s: State, step: Step)
    requires Inv(s) && Enabled(s, step)
    ensures Inv(Apply(s, step)) && s.tags <= Apply(s, step).tags
  {
    var t := Apply(s, step);
    OwnRequestKeeps(s, step);
    hide Enabled, Apply, IdsOk, RequestOk, Rows;
    forall p | p in t.posts
      ensures p < t.nextPost && Rows(t.tags, t.posts[p])
    {
      PostsKeep(s, step, p);
    }
    forall q | q in t.requests
      ensures RequestOk(t, t.requests[q])
    {
      if q != step.req {
        GrowthKeepsRequest(s, t, s.requests[q]);
      }
    }
  }

  // ----- order

  ghost function NameIn(names: seq<string>): Tag -> bool {
    (t: Tag) => t.name in names
  }

  ghost function NoTagHas(tags: seq<Tag>): string -> bool {
    (n: string) => !HasName(tags, n)
  }

  /** The tags a post keeps are all its tags with a requested name, in their order. */
  lemma {:induction false} NamedFilter(tags: seq<Tag>, names: seq<string>)
    ensures IsFilter(tags, Named(tags, names), NameIn(names))
  {
    hide IsFilter;
    if tags == [] {
      NothingKept(tags, NameIn(names));
    } else {
      var init, last := tags[..|tags| - 1], tags[|tags| - 1];
      NamedFilter(init, names);
      FilterOneMore(init, Named(init, names), NameIn(names), last);
      assert tags == init + [last] && Named(init, names) + [] == Named(init, names);
    }
  }

  /** The names a creation saves are all requested names that no tag has, in their order and as often
      as they are requested. */
  lemma {:induction false} MissingFilter(tags: seq<Tag>, names: seq<string>)
    ensures IsFilter(names, MissingNames(tags, names), NoTagHas(tags))
  {
    hide IsFilter, HasName;
    if names == [] {
      NothingKept(names, NoTagHas(tags));
    } else {
      var init, last := names[..|names| - 1], names[|names| - 1];
      MissingFilter(tags, init);
      FilterOneMore(init, MissingNames(tags, init), NoTagHas(tags), last);
      assert names == init + [last] && MissingNames(tags, init) + [] == MissingNames(tags, init);
    }
  }

  /** The places of the tags that are added to others: one is left out exactly if a tag with its id
      is among the others or comes before it. */
  ghost predicate AddedAt(tags: seq<Tag>, more: seq<Tag>, places: seq<nat>) {
    && (forall k | 0 <= k < |places| :: places[k] < |more|)
    && (forall k, l | 0 <= k < l < |places| :: places[k] < places[l])
    && (forall i: nat | i < |more| :: i !in places <==> HasId(tags + more[..i], more[i].id))
  }

  lemma NothingAdded(tags: seq<Tag>)
    ensures AddedAt(tags, [], [])
  {
  }

  lemma AddedOneMore(tags: seq<Tag>, more: seq<Tag>, places: seq<nat>, last: Tag)
    requires AddedAt(tags, more, places)
    ensures AddedAt(tags, more + [last], if HasId(tags + more, last.id) then places else places + [|more|])
  {
    hide HasId;
    var all, n := more + [last], |more|;
    var after := if HasId(tags + more, last.id) then places else places + [n];
    assert all[..n] == more;
    forall i: nat | i < |all|
      ensures i !in after <==> HasId(tags + all[..i], all[i].id)
    {
      assert i < n ==> all[..i] == more[..i] && all[i] == more[i];
    }
  }

  /** The tags added to those a post keeps stand in the order they were found. */
  lemma {:induction false} PushInOrder(tags: seq<Tag>, more: seq<Tag>) returns (places: seq<nat>)
    ensures AddedAt(tags, more, places)
    ensures |Push(tags, more)| == |tags| + |places| && tags <= Push(tags, more)
    ensures forall k | 0 <= k < |places| :: places[k] < |more| && Push(tags, more)[|tags| + k] == more[places[k]]
  {
    hide HasId, AddedAt;
    if more == [] {
      places := [];
      NothingAdded(tags);
    } else {
      var init, last := more[..|more| - 1], more[|more| - 1];
      places := PushInOrder(tags, init);
      PushedIds(tags, init, last.id);
      AddedOneMore(tags, init, places, last);
      assert more == init + [last];
      places := if HasId(tags + init, last.id) then places else places + [|init|];
    }
  }

  lemma {:induction false} PushedIds(tags: seq<Tag>, more: seq<Tag>, id: int)
    ensures HasId(Push(tags, more), id) <==> HasId(tags + more, id)
  {
    if more == [] {
      assert tags + more == tags;
    } else {
      var init, last := more[..|more| - 1], more[|more| - 1];
      PushedIds(tags, init, id);
      PushedIds(tags, init, last.id);
      assert tags + more == (tags + init) + [last];
      HasIdOneMore(tags + init, last, id);
      HasIdOneMore(Push(tags, init), last, id);
      hide HasId;
    }
  }

  lemma HasIdOneMore(tags: seq<Tag>, tag: Tag, id: int)
    ensures HasId(tags + [tag], id) <==> HasId(tags, id) || tag.id == id
  {
    if k :| 0 <= k < |tags| && tags[k].id == id {
      assert (tags + [tag])[k].id == id;
    }
    if tag.id == id {
      assert (tags + [tag])[|tags|].id == id;
    }
  }
}
