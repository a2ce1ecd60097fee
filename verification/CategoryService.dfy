/** The service that keeps the category table, one method for each stretch of code between two
    awaits, and the two requests as those stretches run when nothing comes in between. */
module CategoryService {
  import opened Options
  import opened Categories

  /** What the client is told; `Pending` while the request goes on. */
  datatype Reply =
    Pending | Done(category: Category) | NameTaken | Missing | NoSuchParent | ParentNotMain | RootToChild | ChildToRoot

  // ----- requests that nothing interrupts

  /** The answer to a creation that is turned down, if it is. */
  function CreateRefusal(rows: seq<Category>, name: string, parent: ParentField): Option<Reply> {
    if HasName(rows, name) then Some(NameTaken)
    else if parent.Null? then None
    else
      var p := FindParent(rows, parent);
      if p.None? then Some(NoSuchParent) else if p.value.parent.Some? then Some(ParentNotMain) else None
  }

  /** The answer to an update that is turned down, if it is. */
  function UpdateRefusal(rows: seq<Category>, id: int, parent: ParentField): Option<Reply> {
    var c := FindId(rows, id);
    if c.None? then Some(Missing)
    else if c.value.parent.None? then (if parent.Null? then None else Some(RootToChild))
    else if parent.Null? then Some(ChildToRoot)
    else if FindsMain(rows, parent) then None
    else Some(NoSuchParent)
  }

  /** When a creation is turned down, and why: a row has its name, or it was given an id that no row
      has, or that of a subcategory. */
  lemma CreateRefusalIs(t: Table, name: string, parent: ParentField)
    requires Forest(t)
    ensures CreateRefusal(t.rows, name, parent) == Some(NameTaken)
       <==> exists k :: 0 <= k < |t.rows| && t.rows[k].name == name
    ensures parent.Null? && (forall k | 0 <= k < |t.rows| :: t.rows[k].name != name) ==>
              CreateRefusal(t.rows, name, parent).None?
    ensures parent.Given? && (forall k | 0 <= k < |t.rows| :: t.rows[k].name != name) ==>
              && ((forall k | 0 <= k < |t.rows| :: t.rows[k].id != parent.id) ==>
                    CreateRefusal(t.rows, name, parent) == Some(NoSuchParent))
              && (forall k | 0 <= k < |t.rows| && t.rows[k].id == parent.id ::
                    CreateRefusal(t.rows, name, parent) == if t.rows[k].parent.Some? then Some(ParentNotMain) else None)
  {
    forall k | 0 <= k < |t.rows|
      ensures FindId(t.rows, t.rows[k].id) == Some(t.rows[k])
    {
      FindIdIs(t.rows, t.rows[k]);
    }
    hide ParentOk, FindId;
  }

  /** When an update is turned down, and why: there is no such row, it would change the level of the
      row, or it was given an id that is not a main category's. */
  lemma UpdateRefusalIs(t: Table, id: int, parent: ParentField, k: nat)
    requires Forest(t) && k < |t.rows| && !parent.Omitted?
    ensures (forall j | 0 <= j < |t.rows| :: t.rows[j].id != id) ==> UpdateRefusal(t.rows, id, parent) == Some(Missing)
    ensures t.rows[k].id == id && t.rows[k].parent.None? ==>
              UpdateRefusal(t.rows, id, parent) == if parent.Null? then None else Some(RootToChild)
    ensures t.rows[k].id == id && t.rows[k].parent.Some? ==>
              UpdateRefusal(t.rows, id, parent) ==
              if parent.Null? then Some(ChildToRoot)
              else if exists j :: 0 <= j < |t.rows| && t.rows[j].id == parent.id && t.rows[j].parent.None? then None
              else Some(NoSuchParent)
  {
    forall j | 0 <= j < |t.rows|
      ensures FindId(t.rows, t.rows[j].id) == Some(t.rows[j])
    {
      FindIdIs(t.rows, t.rows[j]);
    }
    hide ParentOk, FindId;
  }

  lemma {:induction false} FindIdIs(rows: seq<Category>, c: Category)
    requires c in rows && forall k, l | 0 <= k < l < |rows| :: rows[k].id != rows[l].id
    ensures FindId(rows, c.id) == Some(c)
  {
    if rows[|rows| - 1] != c {
      var k := PlaceOf(rows, c);
      assert rows[..|rows| - 1][k] == c;
      FindIdIs(rows[..|rows| - 1], c);
    }
  }

  class Service {
    var rows: seq<Category>
    var nextId: int
    var requests: map<nat, Request>

    ghost function View(): State
      reads this
    {
      State(Table(rows, nextId), requests)
    }

    constructor ()
      ensures View() == State(Table([], 1), map[])
      ensures Inv(View())
    {
      rows, nextId, requests := [], 1, map[];
    }

    method CheckName(req: nat, name: string, published: bool, parent: ParentField) returns (reply: Reply)
      requires Enabled(View(), Step.CheckName(req, name, published, parent))
      modifies this
      ensures View() == Apply(old(View()), Step.CheckName(req, name, published, parent))
      ensures reply == if HasName(old(rows), name) then NameTaken else Pending
    {
      if HasName(rows, name) {
        return NameTaken;
      }
      requests := requests[req :=
        if parent.Null? then Adding(name, published, None) else Naming(name, published, parent)];
      reply := Pending;
    }

    method CheckParent(req: nat) returns (reply: Reply)
      requires Enabled(View(), Step.CheckParent(req))
      modifies this
      ensures View() == Apply(old(View()), Step.CheckParent(req))
      ensures var p := FindParent(old(rows), old(requests)[req].parent);
              reply == if p.None? then NoSuchParent else if p.value.parent.Some? then ParentNotMain else Pending
    {
      var q := requests[req];
      var p := FindParent(rows, q.parent);
      if p.None? {
        requests, reply := requests - {req}, NoSuchParent;
      } else if p.value.parent.Some? {
        requests, reply := requests - {req}, ParentNotMain;
      } else {
        requests, reply := requests[req := Adding(q.name, q.published, Stored(q.parent))], Pending;
      }
    }

    method Insert(req: nat) returns (reply: Reply)
      requires Enabled(View(), Step.Insert(req))
      modifies this
      ensures View() == Apply(old(View()), Step.Insert(req))
      ensures rows == old(rows) + [Category(old(nextId), old(requests)[req].name,
                                           old(requests)[req].published, old(requests)[req].storedParent)]
      ensures reply == Done(rows[|rows| - 1])
    {
      var q := requests[req];
      var category := Category(nextId, q.name, q.published, q.storedParent);
      rows, nextId, requests := rows + [category], nextId + 1, requests - {req};
      reply := Done(category);
    }

    method CheckCategory(req: nat, id: int, name: Option<string>, published: Option<bool>, parent: ParentField)
      returns (reply: Reply)
      requires Enabled(View(), Step.CheckCategory(req, id, name, published, parent))
      modifies this
      ensures View() == Apply(old(View()), Step.CheckCategory(req, id, name, published, parent))
      ensures var c := FindId(old(rows), id);
              reply == if c.None? then Missing
                       else if c.value.parent.None? && !parent.Null? then RootToChild
                       else if c.value.parent.Some? && parent.Null? then ChildToRoot
                       else Pending
    {
      var category := FindId(rows, id);
      if category.None? {
        return Missing;
      }
      if category.value.parent.None? {
        if !parent.Null? {
          return RootToChild;
        }
        requests := requests[req := Changing(id, name, published, None)];
      } else {
        if parent.Null? {
          return ChildToRoot;
        }
        requests := requests[req := Moving(id, name, published, parent)];
      }
      reply := Pending;
    }

    method CheckNewParent(req: nat) returns (reply: Reply)
      requires Enabled(View(), Step.CheckNewParent(req))
      modifies this
      ensures View() == Apply(old(View()), Step.CheckNewParent(req))
      ensures reply == if FindsMain(old(rows), old(requests)[req].newParent) then Pending else NoSuchParent
    {
      var q := requests[req];
      var p := FindParent(rows, q.newParent);
      if p.None? || p.value.parent.Some? {
        requests, reply := requests - {req}, NoSuchParent;
      } else {
        requests, reply := requests[req := Changing(q.id, q.newName, q.newPublished, Stored(q.newParent))], Pending;
      }
    }

    method Write(req: nat)
      requires Enabled(View(), Step.Write(req))
      modifies this
      ensures View() == Apply(old(View()), Step.Write(req))
    {
      var q, k := requests[req], 0;
      while k < |rows|
        invariant 0 <= k <= |rows| == |old(rows)|
        invariant nextId == old(nextId) && requests == old(requests)
        invariant forall j | 0 <= j < k :: rows[j] == Updated(old(rows)[j], q)
        invariant forall j | k <= j < |rows| :: rows[j] == old(rows)[j]
      {
        rows := rows[k := Updated(rows[k], q)];
        k := k + 1;
      }
      requests := requests - {req};
    }

    /** A creation that nothing interrupts: the reason to refuse it, or the new row and nothing else. */
    method CreateCategory(req: nat, name: string, published: bool, parent: ParentField) returns (reply: Reply)
      requires req !in requests
      modifies this
      ensures var refusal := CreateRefusal(old(rows), name, parent);
              var category := Category(old(nextId), name, published, if parent.Given? then Some(parent.id) else None);
              if refusal.Some? then View() == old(View()) && reply == refusal.value
              else View() == State(Table(old(rows) + [category], old(nextId) + 1), old(requests))
                   && reply == Done(category)
    {
      reply := CheckName(req, name, published, parent);
      if reply == Pending && !parent.Null? {
        reply := CheckParent(req);
      }
      if reply == Pending {
        reply := Insert(req);
      }
      assert requests == old(requests);
    }

    /** An update that nothing interrupts: the reason to refuse it, or the row replaced, which is
        read back, and no other row changed. */
    method UpdateCategory(req: nat, id: int, name: Option<string>, published: Option<bool>, parent: ParentField)
      returns (reply: Reply)
      requires Inv(View()) && req !in requests
      modifies this
      ensures var refusal, q := UpdateRefusal(old(rows), id, parent), Changing(id, name, published, Stored(parent));
              if refusal.Some? then View() == old(View()) && reply == refusal.value
              else
                && FindId(old(rows), id).Some?
                && View() == State(Table(Rewrite(old(rows), q), old(nextId)), old(requests))
                && var c := FindId(old(rows), id).value;
                   reply == Done(Category(c.id, if name.Some? then name.value else c.name,
                                          if published.Some? then published.value else c.published,
                                          if parent.Given? then Some(parent.id) else c.parent))
    {
      hide Inv, Forest;
      reply := CheckCategory(req, id, name, published, parent);
      if reply == Pending && !parent.Null? {
        reply := CheckNewParent(req);
      }
      if reply == Pending {
        ghost var c, q := FindId(old(rows), id).value, Changing(id, name, published, Stored(parent));
        assert requests[req] == q;
        Write(req);
        Reread(old(rows), c, q, old(View()));
        reply := Done(FindId(rows, id).value);
      }
      assert requests == old(requests);
    }
  }

  /** The row read back after an update is the updated row. */
  lemma Reread(rows: seq<Category>, c: Category, q: Request, s: State)
    requires Inv(s) && s.table.rows == rows && c in rows && q.Changing? && q.id == c.id
    ensures FindId(Rewrite(rows, q), c.id) == Some(Updated(c, q))
  {
    var m := PlaceOf(rows, c);
    assert Rewrite(rows, q)[m] == Updated(c, q);
    FindIdIs(Rewrite(rows, q), Updated(c, q));
  }
}
