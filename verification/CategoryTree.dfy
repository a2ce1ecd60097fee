/** The category lists of the blog: administrators see the whole forest, readers the published part. */
module CategoryTree {
  import opened Filters
  import opened Options
  import opened Categories

  /** A loaded row; the subcategories are loaded for the rows of the query, not for those below. */
  datatype Entity = Loaded(category: Category, subs: seq<Entity>) | Bare(category: Category)

  /** A rendered category; the children of a bare row are null. */
  datatype Node = Branch(category: Category, children: seq<Node>) | Leaf(category: Category)

  function Where(rows: seq<Category>, keep: Category -> bool): seq<Category> {
    if rows == [] then []
    else Where(rows[..|rows| - 1], keep) + if keep(rows[|rows| - 1]) then [rows[|rows| - 1]] else []
  }

  function Newest(rows: seq<Category>): (r: seq<Category>)
    ensures |r| == |rows| && forall k | 0 <= k < |r| :: r[k] == rows[|rows| - 1 - k]
  {
    seq(|rows|, k requires 0 <= k < |rows| => rows[|rows| - 1 - k])
  }

  function SubcategoriesOf(rows: seq<Category>, id: int): seq<Category> {
    Where(rows, (c: Category) => c.parent == Some(id))
  }

  /** Rows of a query with their subcategories, which come from the whole table. */
  function Load(rows: seq<Category>, selected: seq<Category>): (r: seq<Entity>)
    ensures |r| == |selected|
  {
    seq(|selected|, k requires 0 <= k < |selected| =>
      Loaded(selected[k], AsBare(SubcategoriesOf(rows, selected[k].id))))
  }

  function AsBare(cs: seq<Category>): (r: seq<Entity>)
    ensures |r| == |cs|
  {
    seq(|cs|, m requires 0 <= m < |cs| => Bare(cs[m]))
  }

  function MapCategory(e: Entity): Node
    decreases e, 1
  {
    if e.Loaded? then Branch(e.category, MapCategories(e.subs)) else Leaf(e.category)
  }

  function MapCategories(es: seq<Entity>): (r: seq<Node>)
    ensures |r| == |es|
    decreases es, 0
  {
    if es == [] then [] else MapCategories(es[..|es| - 1]) + [MapCategory(es[|es| - 1])]
  }

  function Mains(es: seq<Entity>): seq<Entity> {
    if es == [] then []
    else Mains(es[..|es| - 1]) + if es[|es| - 1].category.parent.None? then [es[|es| - 1]] else []
  }

  function FindAllCate(rows: seq<Category>): seq<Node> {
    MapCategories(Mains(Load(rows, Newest(rows))))
  }

  function FindAllCateUser(rows: seq<Category>): seq<Node> {
    MapCategories(Mains(Load(rows, Where(rows, (c: Category) => c.published))))
  }

  /** All categories of rendered trees, parents before children. */
  ghost function Flatten(nodes: seq<Node>): seq<Category>
    decreases nodes
  {
    if nodes == [] then []
    else
      var last := nodes[|nodes| - 1];
      Flatten(nodes[..|nodes| - 1]) + [last.category] + if last.Branch? then Flatten(last.children) else []
  }

  ghost predicate DistinctIds(rows: seq<Category>) {
    forall k, l | 0 <= k < l < |rows| :: rows[k].id != rows[l].id
  }

  lemma {:induction false} WhereSelects(rows: seq<Category>, keep: Category -> bool)
    ensures forall c :: c in Where(rows, keep) <==> c in rows && keep(c)
    ensures DistinctIds(rows) ==> DistinctIds(Where(rows, keep))
  {
    if rows != [] {
      var init, last := rows[..|rows| - 1], rows[|rows| - 1];
      WhereSelects(init, keep);
      assert rows == init + [last];
      if DistinctIds(rows) {
        assert forall c | c in init :: c.id != last.id;
        assert forall k | 0 <= k < |Where(init, keep)| :: Where(init, keep)[k] in init;
      }
    }
  }

  /** The listing of selected rows: each main category followed by all its subcategories. */
  ghost function Listing(rows: seq<Category>, selected: seq<Category>): seq<Category> {
    if selected == [] then []
    else
      var last := selected[|selected| - 1];
      Listing(rows, selected[..|selected| - 1])
      + if last.parent.None? then [last] + SubcategoriesOf(rows, last.id) else []
  }

  lemma MapAppends(es: seq<Entity>, e: Entity)
    ensures Flatten(MapCategories(es + [e])) ==
            Flatten(MapCategories(es)) + [e.category] + if e.Loaded? then Flatten(MapCategories(e.subs)) else []
  {
    assert (es + [e])[..|es|] == es;
    assert (MapCategories(es) + [MapCategory(e)])[..|es|] == MapCategories(es);
  }

  lemma {:induction false} FlattenLeaves(cs: seq<Category>)
    ensures Flatten(MapCategories(AsBare(cs))) == cs
  {
    if cs != [] {
      var n := |cs| - 1;
      FlattenLeaves(cs[..n]);
      MapAppends(AsBare(cs[..n]), Bare(cs[n]));
      assert AsBare(cs) == AsBare(cs[..n]) + [Bare(cs[n])];
      hide Flatten, MapCategories;
    }
  }

  lemma LoadAppends(rows: seq<Category>, init: seq<Category>, last: Category)
    ensures Mains(Load(rows, init + [last])) ==
            if last.parent.None? then Mains(Load(rows, init)) + [Loaded(last, AsBare(SubcategoriesOf(rows, last.id)))]
            else Mains(Load(rows, init))
    ensures Listing(rows, init + [last]) ==
            if last.parent.None? then Listing(rows, init) + [last] + SubcategoriesOf(rows, last.id)
            else Listing(rows, init)
  {
    var e := Loaded(last, AsBare(SubcategoriesOf(rows, last.id)));
    assert Load(rows, init + [last]) == Load(rows, init) + [e];
    assert (Load(rows, init) + [e])[..|init|] == Load(rows, init);
    assert (init + [last])[..|init|] == init;
    assert Listing(rows, init) + [last] + SubcategoriesOf(rows, last.id)
        == Listing(rows, init) + ([last] + SubcategoriesOf(rows, last.id));
  }

  lemma {:induction false} FlattenIsListing(rows: seq<Category>, selected: seq<Category>)
    ensures Flatten(MapCategories(Mains(Load(rows, selected)))) == Listing(rows, selected)
  {
    if selected == [] {
    } else {
      hide Flatten, MapCategories, SubcategoriesOf, AsBare, Mains, Load, Listing;
      var init, last := selected[..|selected| - 1], selected[|selected| - 1];
      FlattenIsListing(rows, init);
      assert selected == init + [last];
      LoadAppends(rows, init, last);
      if last.parent.None? {
        var subs := SubcategoriesOf(rows, last.id);
        MapAppends(Mains(Load(rows, init)), Loaded(last, AsBare(subs)));
        FlattenLeaves(subs);
      }
    }
  }

  lemma IsMainExtends(init: seq<Category>, last: Category, id: int)
    ensures IsMain(init + [last], id) <==> IsMain(init, id) || (last.id == id && last.parent.None?)
  {
    if k :| 0 <= k < |init| && init[k].id == id && init[k].parent.None? {
      assert (init + [last])[k] == init[k];
    }
    if last.id == id && last.parent.None? {
      assert (init + [last])[|init|] == last;
    }
  }

  /** Who is listed: the selected main categories and every subcategory of one of them. */
  ghost predicate Listed(rows: seq<Category>, selected: seq<Category>, c: Category) {
    if c.parent.None? then c in selected else c in rows && IsMain(selected, c.parent.value)
  }

  lemma {:induction false} ListingMembers(rows: seq<Category>, selected: seq<Category>, c: Category)
    ensures c in Listing(rows, selected) <==> Listed(rows, selected, c)
  {
    if selected != [] {
      var init, last := selected[..|selected| - 1], selected[|selected| - 1];
      assert selected == init + [last];
      ListingMembers(rows, init, c);
      WhereSelects(rows, (x: Category) => x.parent == Some(last.id));
      if c.parent.Some? {
        IsMainExtends(init, last, c.parent.value);
      }
      hide IsMain, Where;
    }
  }

  lemma SameIdSameRow(rows: seq<Category>, c: Category, d: Category)
    requires DistinctIds(rows) && c in rows && d in rows && c.id == d.id
    ensures c == d
  {
  }

  /** Where one more main category is listed, nothing is listed twice. */
  lemma ListingGrows(rows: seq<Category>, init: seq<Category>, last: Category, c: Category, d: Category)
    requires DistinctIds(rows) && last in rows && last.parent.None? && !IsMain(init, last.id)
    requires forall x | x in init :: x in rows
    requires Listed(rows, init, c) && (d == last || d in SubcategoriesOf(rows, last.id))
    ensures c.id != d.id
  {
    WhereSelects(rows, (x: Category) => x.parent == Some(last.id));
    if c.id == d.id {
      SameIdSameRow(rows, c, d);
    }
  }

  lemma {:induction false} ListingIsDistinct(rows: seq<Category>, selected: seq<Category>)
    requires DistinctIds(rows) && DistinctIds(selected) && forall x | x in selected :: x in rows
    ensures DistinctIds(Listing(rows, selected))
  {
    if selected != [] {
      var init, last := selected[..|selected| - 1], selected[|selected| - 1];
      assert selected == init + [last];
      ListingIsDistinct(rows, init);
      if last.parent.None? {
        assert !IsMain(init, last.id);
        var before, subs := Listing(rows, init), SubcategoriesOf(rows, last.id);
        WhereSelects(rows, (x: Category) => x.parent == Some(last.id));
        forall k, l | 0 <= k < |before| && 0 <= l < 1 + |subs|
          ensures before[k].id != ([last] + subs)[l].id
        {
          assert before[k] in before;
          ListingMembers(rows, init, before[k]);
          ListingGrows(rows, init, last, before[k], ([last] + subs)[l]);
        }
        forall l | 0 <= l < |subs|
          ensures subs[l].id != last.id
        {
          assert subs[l] in subs;
          if subs[l].id == last.id {
            SameIdSameRow(rows, subs[l], last);
          }
        }
        DistinctAppend(before, [last] + subs);
      }
    }
  }

  lemma DistinctAppend(a: seq<Category>, b: seq<Category>)
    requires DistinctIds(a) && DistinctIds(b)
    requires forall k, l | 0 <= k < |a| && 0 <= l < |b| :: a[k].id != b[l].id
    ensures DistinctIds(a + b)
  {
  }

  /** The administrator's list shows every category of the table, each exactly once. */
  lemma FindAllListsEachOnce(t: Table)
    requires Forest(t)
    ensures forall c :: c in Flatten(FindAllCate(t.rows)) <==> c in t.rows
    ensures DistinctIds(Flatten(FindAllCate(t.rows)))
  {
    var rows, newest := t.rows, Newest(t.rows);
    FlattenIsListing(rows, newest);
    NewestMembers(rows);
    hide Newest;
    ListingIsDistinct(rows, newest);
    hide Listing, Flatten, MapCategories;
    forall c
      ensures c in Flatten(FindAllCate(rows)) <==> c in rows
    {
      ListingMembers(rows, newest, c);
      if c in rows && c.parent.Some? {
        var k := PlaceOf(rows, c);
        assert ParentOk(rows, k);
        var m :| 0 <= m < |rows| && rows[m].id == c.parent.value && rows[m].parent.None?;
        assert rows[m] in newest;
        var l := PlaceOf(newest, rows[m]);
      }
    }
  }

  lemma NewestMembers(rows: seq<Category>)
    ensures forall c :: c in Newest(rows) <==> c in rows
    ensures DistinctIds(rows) ==> DistinctIds(Newest(rows))
  {
    assert forall k | 0 <= k < |rows| :: rows[k] == Newest(rows)[|rows| - 1 - k];
  }

  /** The readers' list shows the published main categories, each with all its subcategories,
      published or not, and nothing twice. */
  lemma FindAllUserLists(t: Table, c: Category)
    requires Forest(t)
    ensures c in Flatten(FindAllCateUser(t.rows)) <==>
              c in t.rows && if c.parent.None? then c.published
                             else exists m :: 0 <= m < |t.rows| && t.rows[m].id == c.parent.value
                                              && t.rows[m].parent.None? && t.rows[m].published
    ensures DistinctIds(Flatten(FindAllCateUser(t.rows)))
  {
    var rows := t.rows;
    var selected := Where(rows, (c: Category) => c.published);
    WhereSelects(rows, (c: Category) => c.published);
    FlattenIsListing(rows, selected);
    ListingIsDistinct(rows, selected);
    ListingMembers(rows, selected, c);
    hide Where, Listing, Flatten, MapCategories;
    if c.parent.Some? {
      if k :| 0 <= k < |selected| && selected[k].id == c.parent.value && selected[k].parent.None? {
        var m := PlaceOf(rows, selected[k]);
      }
      if m :| 0 <= m < |rows| && rows[m].id == c.parent.value && rows[m].parent.None? && rows[m].published {
        assert rows[m] in selected;
        var k := PlaceOf(selected, rows[m]);
      }
    }
  }

  /** No published main category has an unpublished subcategory. */
  ghost predicate PublishedThroughout(rows: seq<Category>) {
    forall k, m | 0 <= k < |rows| && 0 <= m < |rows| ::
      rows[k].parent.None? && rows[k].published && rows[m].parent == Some(rows[k].id) ==> rows[m].published
  }

  /** Readers are shown published categories only exactly when no published main category has an
      unpublished subcategory. */
  lemma ReadersSeePublishedIff(t: Table)
    requires Forest(t)
    ensures (forall c | c in Flatten(FindAllCateUser(t.rows)) :: c.published) <==> PublishedThroughout(t.rows)
  {
    var rows, shown := t.rows, Flatten(FindAllCateUser(t.rows));
    forall c
      ensures c in shown <==>
                c in rows && if c.parent.None? then c.published
                             else exists m :: 0 <= m < |rows| && rows[m].id == c.parent.value
                                              && rows[m].parent.None? && rows[m].published
    {
      FindAllUserLists(t, c);
    }
    hide Flatten, FindAllCateUser, Forest;
    if forall c | c in shown :: c.published {
      forall k, m | 0 <= k < |rows| && 0 <= m < |rows|
                    && rows[k].parent.None? && rows[k].published && rows[m].parent == Some(rows[k].id)
        ensures rows[m].published
      {
        assert rows[m] in shown;
      }
    }
  }

  /** A published main category with an unpublished subcategory: readers are shown both. */
  lemma UnpublishedShown() returns (t: Table, c: Category)
    ensures Forest(t) && c in t.rows && !c.published
    ensures c in Flatten(FindAllCateUser(t.rows))
  {
    var main := Category(1, "a", true, None);
    c := Category(2, "b", false, Some(1));
    t := Table([main, c], 3);
    assert t.rows[0] == main && t.rows[1] == c;
    assert IsMain(t.rows, 1);
    FindAllUserLists(t, c);
    hide Flatten, FindAllCateUser;
  }

  // ----- order, and which children hang where

  const IS_MAIN: Category -> bool := (c: Category) => c.parent.None?

  lemma {:induction false} WhereFilter(rows: seq<Category>, keep: Category -> bool)
    ensures IsFilter(rows, Where(rows, keep), keep)
  {
    hide IsFilter;
    if rows == [] {
      NothingKept(rows, keep);
    } else {
      var init, last := rows[..|rows| - 1], rows[|rows| - 1];
      WhereFilter(init, keep);
      FilterOneMore(init, Where(init, keep), keep, last);
      assert rows == init + [last] && Where(init, keep) + [] == Where(init, keep);
    }
  }

  ghost function Leaves(cs: seq<Category>): (nodes: seq<Node>)
    ensures |nodes| == |cs| && forall m | 0 <= m < |cs| :: nodes[m] == Leaf(cs[m])
  {
    seq(|cs|, m requires 0 <= m < |cs| => Leaf(cs[m]))
  }

  lemma {:induction false} BareAreLeaves(cs: seq<Category>)
    ensures MapCategories(AsBare(cs)) == Leaves(cs)
  {
    if cs != [] {
      var n := |cs| - 1;
      BareAreLeaves(cs[..n]);
      assert AsBare(cs)[..n] == AsBare(cs[..n]);
      assert Leaves(cs) == Leaves(cs[..n]) + [Leaf(cs[n])];
    }
  }

  lemma MapOneMore(es: seq<Entity>, e: Entity)
    ensures MapCategories(es + [e]) == MapCategories(es) + [MapCategory(e)]
  {
    assert (es + [e])[..|es|] == es;
  }

  /** One node a main category among the rows queried, in their order, and under it the leaves of its
      subcategories. */
  ghost predicate Rendered(nodes: seq<Node>, rows: seq<Category>, mains: seq<Category>) {
    |nodes| == |mains| &&
    forall k | 0 <= k < |mains| :: nodes[k] == Branch(mains[k], Leaves(SubcategoriesOf(rows, mains[k].id)))
  }

  lemma {:induction false} RenderedMains(rows: seq<Category>, selected: seq<Category>) returns (mains: seq<Category>)
    ensures IsFilter(selected, mains, IS_MAIN)
    ensures Rendered(MapCategories(Mains(Load(rows, selected))), rows, mains)
  {
    hide IsFilter, MapCategories, SubcategoriesOf, AsBare, Mains, Load, Listing;
    if selected == [] {
      mains := [];
      NothingKept(selected, IS_MAIN);
      NothingRendered(rows);
    } else {
      var init, last := selected[..|selected| - 1], selected[|selected| - 1];
      mains := RenderedMains(rows, init);
      assert selected == init + [last];
      FilterOneMore(init, mains, IS_MAIN, last);
      LoadAppends(rows, init, last);
      if last.parent.None? {
        MapOneMore(Mains(Load(rows, init)), Loaded(last, AsBare(SubcategoriesOf(rows, last.id))));
        BareAreLeaves(SubcategoriesOf(rows, last.id));
        mains := mains + [last];
      }
    }
  }

  lemma NothingRendered(rows: seq<Category>)
    ensures MapCategories(Mains(Load(rows, []))) == []
  {
  }

  ghost function ChildOf(id: int): Category -> bool {
    (c: Category) => c.parent == Some(id)
  }

  /** The subcategories of a category are all the rows with its id as parent, in table order. */
  lemma SubcategoriesAre(rows: seq<Category>, id: int)
    ensures IsFilter(rows, SubcategoriesOf(rows, id), ChildOf(id))
  {
    WhereFilter(rows, ChildOf(id));
    SameWhere(rows, ChildOf(id), (c: Category) => c.parent == Some(id));
    hide IsFilter;
  }

  lemma {:induction false} SameWhere(rows: seq<Category>, keep: Category -> bool, same: Category -> bool)
    requires forall c :: keep(c) == same(c)
    ensures Where(rows, keep) == Where(rows, same)
  {
    if rows != [] {
      SameWhere(rows[..|rows| - 1], keep, same);
    }
  }

  /** The administrator's list has a node for every main category, the newest first, and under each
      its own subcategories, the oldest first. */
  lemma AdminListIs(rows: seq<Category>) returns (mains: seq<Category>)
    ensures IsFilter(Newest(rows), mains, IS_MAIN) && Rendered(FindAllCate(rows), rows, mains)
  {
    mains := RenderedMains(rows, Newest(rows));
    hide IsFilter, Rendered, MapCategories, Mains, Load;
  }

  const IS_PUBLISHED: Category -> bool := (c: Category) => c.published

  /** The readers' list has a node for every published main category, the oldest first, and under each
      its own subcategories. */
  lemma ReaderListIs(rows: seq<Category>) returns (published: seq<Category>, mains: seq<Category>)
    ensures IsFilter(rows, published, IS_PUBLISHED) && IsFilter(published, mains, IS_MAIN)
    ensures Rendered(FindAllCateUser(rows), rows, mains)
  {
    published := Where(rows, (c: Category) => c.published);
    WhereFilter(rows, IS_PUBLISHED);
    SameWhere(rows, IS_PUBLISHED, (c: Category) => c.published);
    mains := RenderedMains(rows, published);
    hide IsFilter, Rendered, MapCategories, Mains, Load;
  }
}
