/** The category table of the blog: a forest of two levels.

    Every `await` ends a step, so the checks of a request and its write may be separated by steps
    of other requests.  No column of the table but the id is unique. */
module Categories {
  import opened Options

  datatype Category = Category(id: int, name: string, published: bool, parent: Option<int>)

  /** The parent field of a request.  When it is left out, the code queries for an undefined id,
      and the database layer answers with some row of its choice. */
  datatype ParentField = Null | Given(id: int) | Omitted(pick: nat)

  /** The table in the order its rows were created, and the next generated id. */
  datatype Table = Table(rows: seq<Category>, nextId: int)

  /** A request between two of its steps. */
  datatype Request =
    | Naming(name: string, published: bool, parent: ParentField)
    | Adding(name: string, published: bool, storedParent: Option<int>)
    | Moving(id: int, newName: Option<string>, newPublished: Option<bool>, newParent: ParentField)
    | Changing(id: int, newName: Option<string>, newPublished: Option<bool>, storedParent: Option<int>)

  datatype State = State(table: Table, requests: map<nat, Request>)

  datatype Step =
    | CheckName(req: nat, name: string, published: bool, parent: ParentField)
    | CheckParent(req: nat)
    | Insert(req: nat)
    | CheckCategory(req: nat, id: int, newName: Option<string>, newPublished: Option<bool>, newParent: ParentField)
    | CheckNewParent(req: nat)
    | Write(req: nat)

  // ----- queries

  function FindId(rows: seq<Category>, id: int): (r: Option<Category>)
    ensures r.Some? ==> r.value in rows && r.value.id == id
    ensures r.None? ==> forall k | 0 <= k < |rows| :: rows[k].id != id
  {
    if rows == [] then None
    else if rows[|rows| - 1].id == id then Some(rows[|rows| - 1])
    else FindId(rows[..|rows| - 1], id)
  }

  function FindParent(rows: seq<Category>, p: ParentField): (r: Option<Category>)
    requires !p.Null?
    ensures r.Some? ==> r.value in rows
    ensures r.Some? && p.Given? ==> r.value.id == p.id
  {
    if p.Given? then FindId(rows, p.id) else if rows == [] then None else Some(rows[p.pick % |rows|])
  }

  predicate HasName(rows: seq<Category>, name: string) {
    exists k :: 0 <= k < |rows| && rows[k].name == name
  }

  /** The parent a request names can be a parent. */
  predicate FindsMain(rows: seq<Category>, p: ParentField)
    requires !p.Null?
  {
    var parent := FindParent(rows, p);
    parent.Some? && parent.value.parent.None?
  }

  /** What is written for a parent field: nothing unless an id is given. */
  function Stored(p: ParentField): Option<int> {
    if p.Given? then Some(p.id) else None
  }

  // ----- the steps

  /** A row after an update: fields left out keep the values they have when it is written. */
  function Updated(c: Category, q: Request): Category
    requires q.Changing?
  {
    if c.id != q.id then c
    else
      Category(c.id, if q.newName.Some? then q.newName.value else c.name,
               if q.newPublished.Some? then q.newPublished.value else c.published,
               if q.storedParent.Some? then q.storedParent else c.parent)
  }

  ghost function Rewrite(rows: seq<Category>, q: Request): (r: seq<Category>)
    requires q.Changing?
    ensures |r| == |rows| && forall k | 0 <= k < |rows| :: r[k] == Updated(rows[k], q)
  {
    seq(|rows|, k requires 0 <= k < |rows| => Updated(rows[k], q))
  }

  ghost predicate Enabled(s: State, step: Step) {
    match step
    case CheckName(req, _, _, _) => req !in s.requests
    case CheckParent(req) => req in s.requests && s.requests[req].Naming? && !s.requests[req].parent.Null?
    case Insert(req) => req in s.requests && s.requests[req].Adding?
    case CheckCategory(req, _, _, _, _) => req !in s.requests
    case CheckNewParent(req) => req in s.requests && s.requests[req].Moving? && !s.requests[req].newParent.Null?
    case Write(req) => req in s.requests && s.requests[req].Changing?
  }

  ghost function Apply(s: State, step: Step): State
    requires Enabled(s, step)
  {
    var rows := s.table.rows;
    match step
    case CheckName(req, name, published, parent) =>
      if HasName(rows, name) then s
      else
        s.(requests := s.requests[req :=
          if parent.Null? then Adding(name, published, None) else Naming(name, published, parent)])
    case CheckParent(req) =>
      var q := s.requests[req];
      s.(requests := if FindsMain(rows, q.parent) then s.requests[req := Adding(q.name, q.published, Stored(q.parent))]
                     else s.requests - {req})
    case Insert(req) =>
      var q, id := s.requests[req], s.table.nextId;
      State(Table(rows + [Category(id, q.name, q.published, q.storedParent)], id + 1), s.requests - {req})
    case CheckCategory(req, id, name, published, parent) =>
      var c := FindId(rows, id);
      if c.None? || (c.value.parent.None? <==> !parent.Null?) then s
      else
        s.(requests := s.requests[req := if parent.Null? then Changing(id, name, published, None)
                                         else Moving(id, name, published, parent)])
    case CheckNewParent(req) =>
      var q := s.requests[req];
      s.(requests := if FindsMain(rows, q.newParent)
                     then s.requests[req := Changing(q.id, q.newName, q.newPublished, Stored(q.newParent))]
                     else s.requests - {req})
    case Write(req) =>
      State(Table(Rewrite(rows, s.requests[req]), s.table.nextId), s.requests - {req})
  }

  // ----- the forest

  ghost predicate IsMain(rows: seq<Category>, id: int) {
    exists k :: 0 <= k < |rows| && rows[k].id == id && rows[k].parent.None?
  }

  ghost predicate IsSub(rows: seq<Category>, id: int) {
    exists k :: 0 <= k < |rows| && rows[k].id == id && rows[k].parent.Some?
  }

  /** Row `k` is a main category or its parent is a main category of the table. */
  ghost predicate ParentOk(rows: seq<Category>, k: nat)
    requires k < |rows|
  {
    rows[k].parent.None? || IsMain(rows, rows[k].parent.value)
  }

  ghost predicate Forest(t: Table) {
    && (forall k, l | 0 <= k < l < |t.rows| :: t.rows[k].id != t.rows[l].id)
    && (forall k | 0 <= k < |t.rows| :: t.rows[k].id < t.nextId)
    && (forall k: nat | k < |t.rows| :: ParentOk(t.rows, k))
  }

  /** What the checks of a request found still holds when it writes. */
  ghost predicate RequestOk(rows: seq<Category>, q: Request) {
    match q
    case Naming(_, _, parent) => !parent.Null?
    case Adding(_, _, parent) => parent.Some? ==> IsMain(rows, parent.value)
    case Moving(id, _, _, parent) => IsSub(rows, id) && !parent.Null?
    case Changing(id, _, _, parent) =>
      && (IsMain(rows, id) || IsSub(rows, id))
      && (parent.Some? ==> IsSub(rows, id) && IsMain(rows, parent.value))
  }

  ghost predicate Inv(s: State) {
    Forest(s.table) && forall req | req in s.requests :: RequestOk(s.table.rows, s.requests[req])
  }

  /** Rows are never lost, moved or renumbered, main categories stay main and subcategories stay
      subcategories. */
  ghost predicate Levels(before: seq<Category>, after: seq<Category>) {
    |before| <= |after| &&
    forall k | 0 <= k < |before| ::
      after[k].id == before[k].id && (after[k].parent.None? <==> before[k].parent.None?)
  }

  /** The place of a row that a query finds. */
  lemma PlaceOf(rows: seq<Category>, c: Category) returns (m: nat)
    requires c in rows
    ensures m < |rows| && rows[m] == c
  {
    m :| m < |rows| && rows[m] == c;
  }

  lemma FoundIsMainOrSub(rows: seq<Category>, c: Category)
    requires c in rows
    ensures if c.parent.None? then IsMain(rows, c.id) else IsSub(rows, c.id)
  {
    var m := PlaceOf(rows, c);
  }

  lemma LevelsKeepKinds(before: seq<Category>, after: seq<Category>, id: int)
    requires Levels(before, after)
    ensures IsMain(before, id) ==> IsMain(after, id)
    ensures IsSub(before, id) ==> IsSub(after, id)
  {
    if k :| 0 <= k < |before| && before[k].id == id && before[k].parent.None? {
      assert after[k].id == id && after[k].parent.None?;
    }
    if k :| 0 <= k < |before| && before[k].id == id && before[k].parent.Some? {
      assert after[k].id == id && after[k].parent.Some?;
    }
  }

  /** Checks stay valid as long as the levels do. */
  lemma LevelsKeepRequest(before: seq<Category>, after: seq<Category>, q: Request)
    requires Levels(before, after) && RequestOk(before, q)
    ensures RequestOk(after, q)
  {
    hide Levels, IsMain, IsSub;
    if q.Moving? || q.Changing? {
      LevelsKeepKinds(before, after, q.id);
    }
    if (q.Adding? || q.Changing?) && q.storedParent.Some? {
      LevelsKeepKinds(before, after, q.storedParent.value);
    }
  }

  lemma InsertKeeps(s: State, req: nat)
    requires Inv(s) && Enabled(s, Insert(req))
    ensures var after := Apply(s, Insert(req)).table; Forest(after) && Levels(s.table.rows, after.rows)
  {
    var q, rows, after := s.requests[req], s.table.rows, Apply(s, Insert(req)).table.rows;
    assert RequestOk(rows, q);
    assert Levels(rows, after);
    forall k: nat | k < |after|
      ensures ParentOk(after, k)
    {
      assert k < |rows| ==> ParentOk(rows, k);
      if after[k].parent.Some? {
        assert IsMain(rows, after[k].parent.value);
        LevelsKeepKinds(rows, after, after[k].parent.value);
      }
    }
  }

  lemma WriteKeepsLevels(s: State, req: nat)
    requires Inv(s) && Enabled(s, Write(req))
    ensures Levels(s.table.rows, Rewrite(s.table.rows, s.requests[req]))
  {
    var q, rows := s.requests[req], s.table.rows;
    assert RequestOk(rows, q);
    hide ParentOk;
    if q.storedParent.Some? {
      var m :| 0 <= m < |rows| && rows[m].id == q.id && rows[m].parent.Some?;
      assert forall k | 0 <= k < |rows| && k != m :: rows[k].id != q.id;
    }
  }

  lemma WriteKeeps(s: State, req: nat)
    requires Inv(s) && Enabled(s, Write(req))
    ensures var after := Apply(s, Write(req)).table; Forest(after) && Levels(s.table.rows, after.rows)
  {
    var q, rows, after := s.requests[req], s.table.rows, Apply(s, Write(req)).table.rows;
    WriteKeepsLevels(s, req);
    assert RequestOk(rows, q);
    hide IsMain, IsSub;
    forall k: nat | k < |after|
      ensures ParentOk(after, k)
    {
      assert ParentOk(rows, k);
      if after[k].parent.Some? {
        LevelsKeepKinds(rows, after, after[k].parent.value);
      }
    }
  }

  /** A check writes nothing, and what it lets through it has found. */
  lemma CheckKeeps(s: State, step: Step)
    requires Inv(s) && Enabled(s, step) && !step.Insert? && !step.Write?
    ensures Apply(s, step).table == s.table && Inv(Apply(s, step))
  {
    var rows := s.table.rows;
    if step.CheckCategory? {
      var c := FindId(rows, step.id);
      if c.Some? {
        FoundIsMainOrSub(rows, c.value);
      }
    } else if step.CheckParent? || step.CheckNewParent? {
      var q := s.requests[step.req];
      var p := if q.Naming? then q.parent else q.newParent;
      assert RequestOk(rows, q);
      if FindsMain(rows, p) {
        FoundIsMainOrSub(rows, FindParent(rows, p).value);
      }
    }
    hide IsMain, IsSub, Forest, FindParent, HasName;
  }

  /** Any step, of any request, keeps the forest, the levels and the checks of the other requests. */
  lemma StepKeeps(s: State, step: Step)
    requires Inv(s) && Enabled(s, step)
    ensures Inv(Apply(s, step)) && Levels(s.table.rows, Apply(s, step).table.rows)
  {
    if step.Insert? || step.Write? {
      if step.Insert? {
        InsertKeeps(s, step.req);
      } else {
        WriteKeeps(s, step.req);
      }
      hide Levels, RequestOk, Forest, Rewrite;
      var t := Apply(s, step);
      forall req | req in t.requests
        ensures RequestOk(t.table.rows, t.requests[req])
      {
        LevelsKeepRequest(s.table.rows, t.table.rows, s.requests[req]);
      }
    } else {
      CheckKeeps(s, step);
      hide Inv, Apply;
    }
  }

  /** No category is its own parent. */
  lemma NoSelfParent(t: Table, k: nat)
    requires Forest(t) && k < |t.rows|
    ensures t.rows[k].parent != Some(t.rows[k].id)
  {
    assert ParentOk(t.rows, k);
  }

  // ----- runs

  datatype Run = Run(states: seq<State>, steps: seq<Step>)

  ghost predicate IsRun(r: Run): (ok: bool)
    ensures ok ==> |r.states| == |r.steps| + 1
  {
    && |r.states| == |r.steps| + 1
    && r.states[0] == State(Table([], 1), map[])
    && forall i | 0 <= i < |r.steps| ::
         Enabled(r.states[i], r.steps[i]) && r.states[i + 1] == Apply(r.states[i], r.steps[i])
  }

  lemma StepOf(r: Run, k: nat)
    requires IsRun(r) && k < |r.steps|
    ensures Enabled(r.states[k], r.steps[k]) && r.states[k + 1] == Apply(r.states[k], r.steps[k])
  {
    hide Enabled, Apply;
  }

  lemma {:induction false} RunKeeps(r: Run, n: nat)
    requires IsRun(r) && n <= |r.steps|
    ensures Inv(r.states[n])
  {
    hide Apply, Enabled;
    if n > 0 {
      RunKeeps(r, n - 1);
      StepOf(r, n - 1);
      hide Inv, IsRun;
      StepKeeps(r.states[n - 1], r.steps[n - 1]);
    }
  }

  /** Over any interleaving: a forest at every point, and between any two points rows are never
      lost or renumbered, main categories stay main and subcategories stay subcategories. */
  lemma {:induction false} RunKeepsLevels(r: Run, m: nat, n: nat)
    requires IsRun(r) && m <= n <= |r.steps|
    ensures Forest(r.states[m].table) && Forest(r.states[n].table)
    ensures Levels(r.states[m].table.rows, r.states[n].table.rows)
    decreases n
  {
    hide Apply, Enabled, IsRun, Forest, RequestOk;
    RunKeeps(r, m);
    if m < n {
      RunKeepsLevels(r, m, n - 1);
      RunKeeps(r, n - 1);
      StepOf(r, n - 1);
      StepKeeps(r.states[n - 1], r.steps[n - 1]);
    }
  }

  // ----- names

  ghost predicate DistinctNames(rows: seq<Category>) {
    forall k, l | 0 <= k < l < |rows| :: rows[k].name != rows[l].name
  }

  /** The name a step writes, if it writes one, is no other category's at that moment. */
  ghost predicate NameIsFree(s: State, step: Step)
    requires Enabled(s, step)
  {
    match step
    case Insert(req) => !HasName(s.table.rows, s.requests[req].name)
    case Write(req) =>
      var q := s.requests[req];
      q.newName.None? ||
      forall k | 0 <= k < |s.table.rows| && s.table.rows[k].id != q.id :: s.table.rows[k].name != q.newName.value
    case _ => true
  }

  lemma WriteKeepsNamesIff(s: State, req: nat)
    requires Inv(s) && Enabled(s, Write(req)) && DistinctNames(s.table.rows)
    ensures DistinctNames(Apply(s, Write(req)).table.rows) <==> NameIsFree(s, Write(req))
  {
    var q, rows, after := s.requests[req], s.table.rows, Apply(s, Write(req)).table.rows;
    assert RequestOk(rows, q);
    var m :| 0 <= m < |rows| && rows[m].id == q.id;
    assert forall k | 0 <= k < |rows| && k != m :: rows[k].id != q.id && after[k] == rows[k];
    hide ParentOk, IsMain, IsSub;
    if DistinctNames(after) && q.newName.Some? {
      assert after[m].name == q.newName.value;
      forall k | 0 <= k < |rows| && rows[k].id != q.id
        ensures rows[k].name != q.newName.value
      {
        assert if k < m then after[k].name != after[m].name else after[m].name != after[k].name;
      }
    }
  }

  /** A step keeps the names of the categories distinct exactly when the name it writes is still
      free when it is written, whatever its check had found. */
  lemma StepKeepsNamesIff(s: State, step: Step)
    requires Inv(s) && Enabled(s, step) && DistinctNames(s.table.rows)
    ensures DistinctNames(Apply(s, step).table.rows) <==> NameIsFree(s, step)
  {
    if step.Write? {
      hide Apply, NameIsFree, Inv;
      WriteKeepsNamesIff(s, step.req);
    } else if step.Insert? {
      var rows, after := s.table.rows, Apply(s, step).table.rows;
      hide Inv;
      if DistinctNames(after) {
        forall k | 0 <= k < |rows|
          ensures rows[k].name != s.requests[step.req].name
        {
          assert after[k].name != after[|rows|].name;
        }
      }
    } else {
      CheckKeeps(s, step);
      hide Apply, Inv;
    }
  }

  /** Names are distinct at every point of a run exactly when every write found its name free. */
  lemma {:induction false} RunKeepsNamesIff(r: Run, n: nat)
    requires IsRun(r) && n <= |r.steps|
    ensures (forall m | 0 <= m <= n :: DistinctNames(r.states[m].table.rows))
       <==> (forall k | 0 <= k < n :: NameIsFree(r.states[k], r.steps[k]))
  {
    hide Apply, Enabled, Inv, NameIsFree;
    if n > 0 {
      hide DistinctNames;
      RunKeepsNamesIff(r, n - 1);
      RunKeeps(r, n - 1);
      StepOf(r, n - 1);
      var s, step := r.states[n - 1], r.steps[n - 1];
      if DistinctNames(s.table.rows) {
        StepKeepsNamesIff(s, step);
      }
    }
  }

  /** The name a step stores in a row. */
  ghost function StoredName(s: State, step: Step): Option<string>
    requires Enabled(s, step)
  {
    match step
    case Insert(req) => Some(s.requests[req].name)
    case Write(req) => s.requests[req].newName
    case _ => None
  }

  lemma NameStaysAbsent(s: State, step: Step, name: string)
    requires Enabled(s, step) && !HasName(s.table.rows, name) && StoredName(s, step) != Some(name)
    ensures !HasName(Apply(s, step).table.rows, name)
  {
    hide FindsMain, FindId;
  }

  /** A name that a check found free is free when it is written if no step in between stored it;
      so the only creations that repeat a name are those that another write overtook. */
  lemma {:induction false} FreeUntilStored(r: Run, m: nat, n: nat, name: string)
    requires IsRun(r) && m <= n <= |r.steps| && !HasName(r.states[m].table.rows, name)
    requires forall k | m <= k < n :: StoredName(r.states[k], r.steps[k]) != Some(name)
    ensures !HasName(r.states[n].table.rows, name)
    decreases n
  {
    hide Apply, Enabled, HasName, StoredName;
    if m < n {
      FreeUntilStored(r, m, n - 1, name);
      StepOf(r, n - 1);
      NameStaysAbsent(r.states[n - 1], r.steps[n - 1], name);
    }
  }

  /** Two creations of one name, each checked before the other writes: both are stored. */
  lemma TwoCreationsShareName() returns (r: Run)
    ensures IsRun(r) && |r.steps| == 4
    ensures !DistinctNames(r.states[4].table.rows)
  {
    var q, a, b := Adding("a", true, None), Category(1, "a", true, None), Category(2, "a", true, None);
    r := Run([State(Table([], 1), map[]), State(Table([], 1), map[1 := q]), State(Table([], 1), map[1 := q, 2 := q]),
              State(Table([a], 2), map[2 := q]), State(Table([a, b], 3), map[])],
             [CheckName(1, "a", true, Null), CheckName(2, "a", true, Null), Insert(1), Insert(2)]);
    assert map[1 := q, 2 := q] - {1} == map[2 := q] && map[2 := q] - {2} == map[];
    var rows := r.states[4].table.rows;
    assert rows[0].name == rows[1].name;
  }

  /** An update that takes the name of another category is stored, even if nothing interrupts it. */
  lemma UpdateMayRepeatName() returns (r: Run)
    ensures IsRun(r) && |r.steps| == 6
    ensures DistinctNames(r.states[5].table.rows) && !DistinctNames(r.states[6].table.rows)
  {
    var a, b, c := Category(1, "a", true, None), Category(2, "b", true, None), Category(2, "a", true, None);
    var q := Changing(2, Some("a"), None, None);
    r := Run([State(Table([], 1), map[]), State(Table([], 1), map[1 := Adding("a", true, None)]),
              State(Table([a], 2), map[]),
              State(Table([a], 2), map[1 := Adding("b", true, None)]), State(Table([a, b], 3), map[]),
              State(Table([a, b], 3), map[1 := q]), State(Table([a, c], 3), map[])],
             [CheckName(1, "a", true, Null), Insert(1), CheckName(1, "b", true, Null), Insert(1),
              CheckCategory(1, 2, Some("a"), None, Null), Write(1)]);
    assert !HasName([a], "b");
    assert FindId([a, b], 2) == Some(b);
    assert Rewrite([a, b], q) == [a, c];
    var rows := r.states[6].table.rows;
    assert rows[0].name == rows[1].name;
  }

  // ----- what is written, and under which parent

  /** Where a request under way comes from: its fields are those of the check that began it, and the
      parent it will store is the id it was given, if it was given one. */
  ghost predicate BeganWith(q: Request, req: nat, step: Step) {
    match q
    case Naming(name, published, parent) => step == CheckName(req, name, published, parent)
    case Adding(name, published, stored) =>
      && step.CheckName? && step.req == req && step.name == name && step.published == published
      && stored == if step.parent.Given? then Some(step.parent.id) else None
    case Moving(id, name, published, parent) => step == CheckCategory(req, id, name, published, parent)
    case Changing(id, name, published, stored) =>
      && step.CheckCategory? && step.req == req && step.id == id
      && step.newName == name && step.newPublished == published
      && stored == if step.newParent.Given? then Some(step.newParent.id) else None
  }

  lemma RequestBegins(s: State, step: Step, req: nat)
    requires Enabled(s, step) && req in Apply(s, step).requests
    ensures var q := Apply(s, step).requests[req];
            if req in s.requests
            then forall began: Step :: BeganWith(s.requests[req], req, began) ==> BeganWith(q, req, began)
            else BeganWith(q, req, step)
  {
    hide FindsMain, FindId, HasName, Rewrite;
  }

  lemma {:induction false} RequestBegan(r: Run, n: nat, req: nat) returns (k: nat)
    requires IsRun(r) && n <= |r.steps| && req in r.states[n].requests
    ensures k < n && BeganWith(r.states[n].requests[req], req, r.steps[k])
  {
    assert n > 0;
    StepOf(r, n - 1);
    hide IsRun, Apply, Enabled, BeganWith;
    RequestBegins(r.states[n - 1], r.steps[n - 1], req);
    if req in r.states[n - 1].requests {
      k := RequestBegan(r, n - 1, req);
    } else {
      k := n - 1;
    }
  }

  /** Over every interleaving, a creation inserts one row with the name and the flag it was asked for,
      under the parent whose id it was given, or as a main category if it was given none. */
  lemma InsertedAsAsked(r: Run, n: nat) returns (k: nat)
    requires IsRun(r) && n < |r.steps| && r.steps[n].Insert?
    ensures k < n && r.steps[k].CheckName? && r.steps[k].req == r.steps[n].req
    ensures var before, after, asked := r.states[n].table, r.states[n + 1].table, r.steps[k];
            after.rows == before.rows + [Category(before.nextId, asked.name, asked.published,
                                                  if asked.parent.Given? then Some(asked.parent.id) else None)]
  {
    StepOf(r, n);
    k := RequestBegan(r, n, r.steps[n].req);
  }

  /** Over every interleaving, an update changes one row: to the name and the flag it was given, or
      to what they are if it was given none, and under the parent whose id it was given. */
  lemma WrittenAsAsked(r: Run, n: nat) returns (k: nat)
    requires IsRun(r) && n < |r.steps| && r.steps[n].Write?
    ensures k < n && r.steps[k].CheckCategory? && r.steps[k].req == r.steps[n].req
    ensures var before, after, asked := r.states[n].table.rows, r.states[n + 1].table.rows, r.steps[k];
            && |after| == |before|
            && forall i | 0 <= i < |before| ::
                 if before[i].id != asked.id then after[i] == before[i]
                 else after[i] == Category(asked.id,
                                           if asked.newName.Some? then asked.newName.value else before[i].name,
                                           if asked.newPublished.Some? then asked.newPublished.value
                                           else before[i].published,
                                           if asked.newParent.Given? then Some(asked.newParent.id)
                                           else before[i].parent)
  {
    StepOf(r, n);
    k := RequestBegan(r, n, r.steps[n].req);
    hide IsRun;
  }
}
