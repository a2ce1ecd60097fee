/** The service that keeps posts and tags, one method for each stretch of code between two awaits,
    and the two requests as those stretches run when nothing comes in between. */
module PostService {
  import opened Options
  import opened Tags

  function FindOne(tags: seq<Tag>, name: string): (r: Option<Tag>)
    ensures Finds(tags, name, r)
  {
    if tags == [] then None
    else if tags[0].name == name then Some(tags[0])
    else
      var r := FindOne(tags[1..], name);
      assert r.None? ==> forall k | 0 < k < |tags| :: tags[k] == tags[1..][k - 1];
      r
  }

  // ----- an update that nothing interrupts

  datatype Table = Table(tags: seq<Tag>, nextId: int)

  /** The table after finding or creating each name in turn. */
  ghost function AfterUpdate(t: Table, names: seq<string>): Table {
    if names == [] then t
    else
      var before, name := AfterUpdate(t, names[..|names| - 1]), names[|names| - 1];
      if HasName(before.tags, name) then before
      else Table(before.tags + [Tag(before.nextId, name, false)], before.nextId + 1)
  }

  /** The tags of the names, as they stand in a table that has them all. */
  ghost function TagsFor(tags: seq<Tag>, names: seq<string>): seq<Tag>
    requires forall n | n in names :: HasName(tags, n)
  {
    seq(|names|, k requires 0 <= k < |names| => FindOne(tags, names[k]).value)
  }

  lemma {:induction false} FindOneKeeps(tags: seq<Tag>, more: seq<Tag>, name: string)
    requires HasName(tags, name)
    ensures HasName(tags + more, name) && FindOne(tags + more, name) == FindOne(tags, name)
  {
    assert (tags + more)[..|tags|] == tags;
    var k :| 0 <= k < |tags| && tags[k].name == name;
    assert (tags + more)[k].name == name;
    if tags[0].name != name {
      assert tags[1..][k - 1].name == name;
      FindOneKeeps(tags[1..], more, name);
      assert (tags + more)[1..] == tags[1..] + more;
    }
  }

  lemma UpdateExtends(t: Table, names: seq<string>, name: string)
    ensures var before := AfterUpdate(t, names);
            AfterUpdate(t, names + [name]) ==
            if HasName(before.tags, name) then before
            else Table(before.tags + [Tag(before.nextId, name, false)], before.nextId + 1)
  {
    assert (names + [name])[..|names|] == names;
  }

  /** Tags found along the way are the ones found in the table as it is then. */
  lemma TagsForExtend(before: seq<Tag>, after: seq<Tag>, names: seq<string>, name: string)
    requires before <= after && (forall n | n in names :: HasName(before, n)) && HasName(after, name)
    ensures forall n | n in names + [name] :: HasName(after, n)
    ensures TagsFor(after, names + [name]) == TagsFor(before, names) + [FindOne(after, name).value]
  {
    hide FindOne, HasName;
    var more := after[|before|..];
    assert after == before + more;
    forall n | n in names
      ensures HasName(after, n) && FindOne(after, n) == FindOne(before, n)
    {
      FindOneKeeps(before, more, n);
    }
  }

  /** A tag that was saved because no row had its name is the one a query now finds. */
  lemma {:induction false} SavedIsFound(tags: seq<Tag>, tag: Tag)
    requires !HasName(tags, tag.name)
    ensures HasName(tags + [tag], tag.name) && FindOne(tags + [tag], tag.name) == Some(tag)
  {
    assert (tags + [tag])[|tags|] == tag;
    if tags != [] {
      assert tags[0].name != tag.name && forall k | 0 < k < |tags| :: tags[k] == tags[1..][k - 1];
      SavedIsFound(tags[1..], tag);
      assert (tags + [tag])[1..] == tags[1..] + [tag];
    }
  }

  /** An update adds one tag for each requested name that no tag has: with that name, unpublished,
      numbered in turn. */
  lemma {:induction false} AfterUpdateIs(t: Table, names: seq<string>)
    ensures var after := AfterUpdate(t, names);
            && t.tags <= after.tags && after.nextId - t.nextId == |after.tags| - |t.tags|
            && (forall n | n in names :: HasName(after.tags, n))
            && forall k | |t.tags| <= k < |after.tags| ::
                 && after.tags[k].name in names && !HasName(after.tags[..k], after.tags[k].name)
                 && !after.tags[k].published && after.tags[k].id == t.nextId + (k - |t.tags|)
  {
    if names != [] {
      var init, name := names[..|names| - 1], names[|names| - 1];
      AfterUpdateIs(t, init);
      assert names == init + [name];
      var before, after := AfterUpdate(t, init).tags, AfterUpdate(t, names).tags;
      forall n | n in names
        ensures HasName(after, n)
      {
        if k :| 0 <= k < |before| && before[k].name == n {
          assert after[k].name == n;
        } else {
          assert after[|before|].name == n;
        }
      }
      assert after[..|before|] == before && forall k | |t.tags| <= k < |before| :: after[..k] == before[..k];
      hide HasName;
    }
  }

  /** The post ends with exactly the requested names. */
  lemma UpdatedPostIs(tags: seq<Tag>, postTags: seq<Tag>, names: seq<string>)
    requires DistinctIds(tags) && Rows(tags, postTags) && names != [] && forall n | n in names :: HasName(tags, n)
    ensures HaveExactly(Reconciled(postTags, names, TagsFor(tags, names)), names)
    ensures Rows(tags, Reconciled(postTags, names, TagsFor(tags, names)))
  {
    var found := TagsFor(tags, names);
    forall k | 0 <= k < |found|
      ensures found[k] in tags && found[k].name == names[k]
    {
      assert names[k] in names;
    }
    hide HasName, FindOne, DistinctIds, Push, Named, TagsFor;
    ReconciledAreRows(tags, postTags, names, found);
    forall n | n in names
      ensures HasName(Push(Named(postTags, names), found), n)
    {
      ReconciledHasName(tags, postTags, names, found, n);
    }
  }

  // ----- a creation that nothing interrupts

  /** Asking only the tags that were found is as good as asking the whole table. */
  lemma {:induction false} MissingSame(tags: seq<Tag>, found: seq<Tag>, all: seq<string>, names: seq<string>)
    requires (forall t :: t in found <==> t in tags && t.name in all) && forall n | n in names :: n in all
    ensures MissingNames(found, names) == MissingNames(tags, names)
  {
    if names != [] {
      var init, last := names[..|names| - 1], names[|names| - 1];
      MissingSame(tags, found, all, init);
      assert last in names;
      if k :| 0 <= k < |tags| && tags[k].name == last {
        assert tags[k] in found;
      }
      if k :| 0 <= k < |found| && found[k].name == last {
        assert found[k] in tags;
      }
    }
  }

  class Service {
    var tags: seq<Tag>
    var nextId: int
    var posts: map<int, seq<Tag>>
    var nextPost: int
    var requests: map<nat, Request>

    ghost function View(): State
      reads this
    {
      State(tags, nextId, posts, nextPost, requests)
    }

    constructor ()
      ensures View() == State([], 1, map[], 1, map[])
      ensures Inv(View())
    {
      tags, nextId, posts, nextPost, requests := [], 1, map[], 1, map[];
    }

    method UpdateRead(req: nat, post: int, names: seq<string>) returns (found: bool)
      requires Enabled(View(), Step.UpdateRead(req, post, names))
      modifies this
      ensures View() == Apply(old(View()), Step.UpdateRead(req, post, names))
      ensures found <==> post in old(posts)
    {
      if post !in posts {
        return false;
      }
      requests := requests[req := Updating(post, posts[post], names, [])];
      found := true;
    }

    method TagFind(req: nat) returns (tag: Option<Tag>)
      requires req in requests && requests[req].Updating? && |requests[req].found| < |requests[req].names|
      modifies this
      ensures tag == FindOne(old(tags), old(requests)[req].names[|old(requests)[req].found|])
      ensures Enabled(old(View()), Step.TagFind(req, tag))
      ensures View() == Apply(old(View()), Step.TagFind(req, tag))
    {
      hide FindOne;
      var q := requests[req];
      tag := FindOne(tags, q.names[|q.found|]);
      requests := requests[req :=
        if tag.Some? then Updating(q.post, q.postTags, q.names, q.found + [tag.value])
        else TagMissing(q.post, q.postTags, q.names, q.found, |tags|)];
    }

    method TagSave(req: nat)
      requires Enabled(View(), Step.TagSave(req))
      modifies this
      ensures View() == Apply(old(View()), Step.TagSave(req))
      ensures tags == old(tags) + [Tag(old(nextId), old(requests)[req].names[|old(requests)[req].found|], false)]
    {
      var q := requests[req];
      var tag := Tag(nextId, q.names[|q.found|], false);
      tags, nextId := tags + [tag], nextId + 1;
      requests := requests[req := Updating(q.post, q.postTags, q.names, q.found + [tag])];
    }

    method UpdateWrite(req: nat)
      requires Enabled(View(), Step.UpdateWrite(req))
      modifies this
      ensures View() == Apply(old(View()), Step.UpdateWrite(req))
    {
      var q := requests[req];
      var postTags := q.postTags;
      if |q.names| > 0 {
        postTags := Attach(Named(q.postTags, q.names), q.found);
      }
      posts, requests := posts[q.post := postTags], requests - {req};
    }

    static method Attach(kept: seq<Tag>, updatedTags: seq<Tag>) returns (result: seq<Tag>)
      ensures result == Push(kept, updatedTags)
    {
      result := kept;
      for k := 0 to |updatedTags|
        invariant result == Push(kept, updatedTags[..k])
      {
        assert updatedTags[..k + 1][..k] == updatedTags[..k];
        if !HasId(result, updatedTags[k].id) {
          result := result + [updatedTags[k]];
        }
      }
      assert updatedTags[..|updatedTags|] == updatedTags;
    }

    method CreateFind(req: nat, names: seq<string>) returns (found: seq<Tag>)
      requires req !in requests && DistinctIds(tags)
      modifies this
      ensures found == Named(old(tags), names)
      ensures Enabled(old(View()), Step.CreateFind(req, names, found))
      ensures View() == Apply(old(View()), Step.CreateFind(req, names, found))
    {
      found := Named(tags, names);
      NamedIsDistinct(tags, names);
      hide Named;
      var missing := MissingNames(found, names);
      requests := requests[req := if missing == [] then Posting(names, found) else TagsMissing(names, found, |tags|)];
    }

    method CreateSave(req: nat)
      requires Enabled(View(), Step.CreateSave(req))
      modifies this
      ensures View() == Apply(old(View()), Step.CreateSave(req))
      ensures var missing := MissingNames(old(requests)[req].found, old(requests)[req].names);
              && |tags| == |old(tags)| + |missing| && old(tags) <= tags
              && forall k | 0 <= k < |missing| :: tags[|old(tags)| + k] == Tag(old(nextId) + k, missing[k], true)
    {
      var q := requests[req];
      var missing := MissingNames(q.found, q.names);
      var saved: seq<Tag> := [];
      for k := 0 to |missing|
        invariant saved == NewTags(missing[..k], nextId)
      {
        saved := saved + [Tag(nextId + k, missing[k], true)];
      }
      assert missing[..|missing|] == missing;
      tags, nextId := tags + saved, nextId + |missing|;
      requests := requests[req := Posting(q.names, q.found + saved)];
    }

    method CreateWrite(req: nat)
      requires Enabled(View(), Step.CreateWrite(req))
      modifies this
      ensures View() == Apply(old(View()), Step.CreateWrite(req))
    {
      posts, nextPost := posts[nextPost := requests[req].found], nextPost + 1;
      requests := requests - {req};
    }

    /** One name of an update: found, or saved. */
    method FindOrSave(req: nat)
      requires req in requests && requests[req].Updating? && |requests[req].found| < |requests[req].names|
      modifies this
      ensures posts == old(posts) && nextPost == old(nextPost)
      ensures var q, t := old(requests)[req], Table(old(tags), old(nextId));
              var name := q.names[|q.found|];
              && Table(tags, nextId) == (if HasName(t.tags, name) then t
                                         else Table(t.tags + [Tag(t.nextId, name, false)], t.nextId + 1))
              && HasName(tags, name)
              && requests == old(requests)[req :=
                   Updating(q.post, q.postTags, q.names, q.found + [FindOne(tags, name).value])]
    {
      hide FindOne;
      var tag := TagFind(req);
      if tag.None? {
        SavedIsFound(tags, Tag(nextId, requests[req].names[|requests[req].found|], false));
        TagSave(req);
      }
      hide HasName;
    }

    /** An update that nothing interrupts: each name found or saved in turn, and the tags of the
        post reconciled with them; no other post changes. */
    method UpdatePost(req: nat, post: int, names: seq<string>) returns (found: bool)
      requires req !in requests
      modifies this
      ensures found <==> post in old(posts)
      ensures !found ==> View() == old(View())
      ensures found ==>
                && Table(tags, nextId) == AfterUpdate(Table(old(tags), old(nextId)), names)
                && (forall n | n in names :: HasName(tags, n))
                && posts == old(posts)[post := Reconciled(old(posts)[post], names, TagsFor(tags, names))]
                && nextPost == old(nextPost) && requests == old(requests)
    {
      hide HasName, FindOne, AfterUpdate, TagsFor, Reconciled;
      found := UpdateRead(req, post, names);
      if !found {
        return;
      }
      ghost var before, waiting := Table(tags, nextId), requests;
      assert names[..0] == [] && TagsFor(tags, []) == [] && AfterUpdate(before, []) == before by { Starts(before); }
      for i := 0 to |names|
        invariant Table(tags, nextId) == AfterUpdate(before, names[..i])
        invariant forall n | n in names[..i] :: HasName(tags, n)
        invariant requests == waiting[req := Updating(post, old(posts)[post], names, TagsFor(tags, names[..i]))]
        invariant |TagsFor(tags, names[..i])| == i
        invariant posts == old(posts) && nextPost == old(nextPost)
      {
        ghost var earlier := tags;
        FindOrSave(req);
        assert names[..i + 1] == names[..i] + [names[i]];
        UpdateExtends(before, names[..i], names[i]);
        TagsForExtend(earlier, tags, names[..i], names[i]);
      }
      assert names[..|names|] == names;
      UpdateWrite(req);
      assert requests == old(requests);
    }

    /** The names of a creation: the tags that have them, and new tags for those that none has. */
    method FindAndSaveMissing(req: nat, names: seq<string>)
      requires req !in requests && DistinctIds(tags)
      modifies this
      ensures posts == old(posts) && nextPost == old(nextPost)
      ensures var saved := NewTags(MissingNames(old(tags), names), old(nextId));
              && tags == old(tags) + saved && nextId == old(nextId) + |saved|
              && requests == old(requests)[req := Posting(names, Named(old(tags), names) + saved)]
    {
      hide Named, MissingNames, FindsAll, DistinctIds;
      var found := CreateFind(req, names);
      assert MissingNames(found, names) == MissingNames(tags, names) by { MissingSame(tags, found, names, names); }
      ghost var saved := NewTags(MissingNames(tags, names), nextId);
      if requests[req].TagsMissing? {
        CreateSave(req);
      } else {
        assert found + saved == found;
      }
      assert requests == old(requests)[req := Posting(names, found + saved)];
    }

    /** A creation that nothing interrupts: a new tag for each name that no row had, and the new
        post with the tags of its names. */
    method CreatePost(req: nat, names: seq<string>)
      requires req !in requests && DistinctIds(tags)
      modifies this
      ensures var saved := NewTags(MissingNames(old(tags), names), old(nextId));
              && tags == old(tags) + saved && nextId == old(nextId) + |saved|
              && posts == old(posts)[old(nextPost) := Named(old(tags), names) + saved]
              && nextPost == old(nextPost) + 1 && requests == old(requests)
    {
      hide Named, MissingNames, DistinctIds, NewTags;
      FindAndSaveMissing(req, names);
      CreateWrite(req);
      assert requests == old(requests);
    }
  }

  lemma Starts(t: Table)
    ensures TagsFor(t.tags, []) == [] && AfterUpdate(t, []) == t
  {
  }
}
