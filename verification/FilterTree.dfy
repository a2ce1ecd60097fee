/** The filter tree of the market news: floors, sectors (LV2), industries (LV4) and stock codes. */
module FilterTree {
  import opened Filters

  datatype Row = Row(code: string, floor: string, lv2: string, lv4: string)

  datatype Group<T> = Group(name: string, items: T)

  type Industry = Group<seq<string>>
  type Sector = Group<seq<Industry>>
  type Floor = Group<seq<Sector>>

  // ----- what the tree should be

  /** The different keys of the rows, in the order they first appear. */
  ghost function Names(rows: seq<Row>, key: Row -> string): seq<string> {
    if rows == [] then []
    else
      var before, name := Names(rows[..|rows| - 1], key), key(rows[|rows| - 1]);
      if name in before then before else before + [name]
  }

  ghost function Matching(rows: seq<Row>, key: Row -> string, name: string): seq<Row> {
    if rows == [] then []
    else
      var before, row := Matching(rows[..|rows| - 1], key, name), rows[|rows| - 1];
      if key(row) == name then before + [row] else before
  }

  /** One group for each key, built from the rows with that key. */
  ghost function GroupBy<T>(rows: seq<Row>, key: Row -> string, sub: seq<Row> -> T): (groups: seq<Group<T>>)
    ensures |groups| == |Names(rows, key)|
    ensures forall k | 0 <= k < |groups| ::
              groups[k] == Group(Names(rows, key)[k], sub(Matching(rows, key, Names(rows, key)[k])))
  {
    var names := Names(rows, key);
    seq(|names|, k requires 0 <= k < |names| => Group(names[k], sub(Matching(rows, key, names[k]))))
  }

  ghost function CodesOf(rows: seq<Row>): (codes: seq<string>)
    ensures |codes| == |rows| && forall k | 0 <= k < |rows| :: codes[k] == rows[k].code
  {
    seq(|rows|, k requires 0 <= k < |rows| => rows[k].code)
  }

  const BY_FLOOR: Row -> string := (r: Row) => r.floor
  const BY_LV2: Row -> string := (r: Row) => r.lv2
  const BY_LV4: Row -> string := (r: Row) => r.lv4

  ghost function Industries(rows: seq<Row>): seq<Industry> {
    GroupBy(rows, BY_LV4, CodesOf)
  }

  ghost function Sectors(rows: seq<Row>): seq<Sector> {
    GroupBy(rows, BY_LV2, Industries)
  }

  ghost function Floors(rows: seq<Row>): seq<Floor> {
    GroupBy(rows, BY_FLOOR, Sectors)
  }

  // ----- properties of grouping

  lemma {:induction false} NamesAreDistinct(rows: seq<Row>, key: Row -> string)
    ensures forall k, l | 0 <= k < l < |Names(rows, key)| :: Names(rows, key)[k] != Names(rows, key)[l]
  {
    if rows != [] {
      NamesAreDistinct(rows[..|rows| - 1], key);
    }
  }

  lemma {:induction false} NamesMatch(rows: seq<Row>, key: Row -> string, name: string)
    ensures name in Names(rows, key) <==> Matching(rows, key, name) != []
  {
    if rows != [] {
      NamesMatch(rows[..|rows| - 1], key, name);
    }
  }

  lemma {:induction false} MatchingHasKey(rows: seq<Row>, key: Row -> string, name: string)
    ensures forall k | 0 <= k < |Matching(rows, key, name)| ::
              key(Matching(rows, key, name)[k]) == name && Matching(rows, key, name)[k] in rows
  {
    if rows != [] {
      MatchingHasKey(rows[..|rows| - 1], key, name);
    }
  }

  // ----- building the tree in place

  function FindIndex<T>(groups: seq<Group<T>>, name: string): (i: int)
    ensures -1 <= i < |groups|
    ensures i >= 0 ==> groups[i].name == name && forall k | 0 <= k < i :: groups[k].name != name
    ensures i == -1 ==> forall k | 0 <= k < |groups| :: groups[k].name != name
  {
    if groups == [] then -1
    else
      var i := FindIndex(groups[..|groups| - 1], name);
      if i >= 0 then i else if groups[|groups| - 1].name == name then |groups| - 1 else -1
  }

  /** Puts a row into the group of its name, or starts that group. */
  ghost function Put<T>(groups: seq<Group<T>>, name: string, fresh_: T, grow: T -> T): seq<Group<T>> {
    var i := FindIndex(groups, name);
    if i == -1 then groups + [Group(name, fresh_)] else groups[i := Group(name, grow(groups[i].items))]
  }

  /** Putting one more row into the groups of some rows gives the groups of all of them, if the
      same holds one level down. */
  lemma PutIsGroupBy<T>(rows: seq<Row>, r: Row, key: Row -> string, sub: seq<Row> -> T, fresh_: T, grow: T -> T)
    requires sub([r]) == fresh_
    requires sub(Matching(rows, key, key(r)) + [r]) == grow(sub(Matching(rows, key, key(r))))
    ensures Put(GroupBy(rows, key, sub), key(r), fresh_, grow) == GroupBy(rows + [r], key, sub)
  {
    assert (rows + [r])[..|rows|] == rows;
    var groups, i := GroupBy(rows, key, sub), FindIndex(GroupBy(rows, key, sub), key(r));
    NamesAreDistinct(rows, key);
    NamesMatch(rows, key, key(r));
    if i == -1 {
      assert forall k | 0 <= k < |groups| :: Names(rows, key)[k] == groups[k].name;
      assert [] + [r] == [r];
    } else {
      assert Names(rows, key)[i] == key(r);
    }
    hide FindIndex;
  }

  ghost function PutIndustry(industries: seq<Industry>, r: Row): seq<Industry> {
    Put(industries, r.lv4, [r.code], codes => codes + [r.code])
  }

  ghost function PutSector(sectors: seq<Sector>, r: Row): seq<Sector> {
    Put(sectors, r.lv2, [Group(r.lv4, [r.code])], industries => PutIndustry(industries, r))
  }

  ghost function PutFloor(floors: seq<Floor>, r: Row): seq<Floor> {
    Put(floors, r.floor, [Group(r.lv2, [Group(r.lv4, [r.code])])], sectors => PutSector(sectors, r))
  }

  lemma SingleGroup<T>(r: Row, key: Row -> string, sub: seq<Row> -> T)
    ensures GroupBy([r], key, sub) == [Group(key(r), sub([r]))]
  {
    assert [r][..|[r]| - 1] == [];
    assert Names([r], key) == [] + [key(r)] == [key(r)];
    assert Matching([r], key, key(r)) == [] + [r] == [r];
  }

  lemma PutIndustryIs(rows: seq<Row>, r: Row)
    ensures PutIndustry(Industries(rows), r) == Industries(rows + [r])
  {
    var m := Matching(rows, BY_LV4, r.lv4);
    assert CodesOf(m + [r]) == CodesOf(m) + [r.code];
    assert CodesOf([r]) == [r.code];
    PutIsGroupBy(rows, r, BY_LV4, CodesOf, [r.code], codes => codes + [r.code]);
  }

  lemma PutSectorIs(rows: seq<Row>, r: Row)
    ensures PutSector(Sectors(rows), r) == Sectors(rows + [r])
  {
    var m := Matching(rows, BY_LV2, r.lv2);
    PutIndustryIs(m, r);
    SingleGroup(r, BY_LV4, CodesOf);
    assert CodesOf([r]) == [r.code];
    PutIsGroupBy(rows, r, BY_LV2, Industries, [Group(r.lv4, [r.code])], industries => PutIndustry(industries, r));
  }

  lemma PutFloorIs(rows: seq<Row>, r: Row)
    ensures PutFloor(Floors(rows), r) == Floors(rows + [r])
  {
    var m := Matching(rows, BY_FLOOR, r.floor);
    PutSectorIs(m, r);
    SingleGroup(r, BY_LV4, CodesOf);
    SingleGroup(r, BY_LV2, Industries);
    assert CodesOf([r]) == [r.code];
    PutIsGroupBy(rows, r, BY_FLOOR, Sectors, [Group(r.lv2, [Group(r.lv4, [r.code])])],
                 sectors => PutSector(sectors, r));
  }

  /** The fold over the query rows, pushing into nested lists in place. */
  method Filter(data: seq<Row>) returns (acc: seq<Floor>)
    ensures acc == Floors(data)
  {
    acc := [];
    for i := 0 to |data|
      invariant acc == Floors(data[..i])
    {
      var cur := data[i];
      assert data[..i + 1] == data[..i] + [cur];
      PutFloorIs(data[..i], cur);
      hide Floors;
      var indexFloor := FindIndex(acc, cur.floor);
      if |acc| == 0 || indexFloor == -1 {
        acc := acc + [Group(cur.floor, [Group(cur.lv2, [Group(cur.lv4, [cur.code])])])];
      } else {
        var floor := acc[indexFloor];
        var indexLv2 := FindIndex(floor.items, cur.lv2);
        if indexLv2 == -1 {
          floor := floor.(items := floor.items + [Group(cur.lv2, [Group(cur.lv4, [cur.code])])]);
        } else {
          var sector := floor.items[indexLv2];
          var indexLv4 := FindIndex(sector.items, cur.lv4);
          if indexLv4 == -1 {
            sector := sector.(items := sector.items + [Group(cur.lv4, [cur.code])]);
          } else {
            var industry := sector.items[indexLv4];
            industry := industry.(items := industry.items + [cur.code]);
            sector := sector.(items := sector.items[indexLv4 := industry]);
          }
          floor := floor.(items := floor.items[indexLv2 := sector]);
        }
        acc := acc[indexFloor := floor];
      }
    }
    assert data[..|data|] == data;
  }

  // ----- what the tree holds

  /** The items of the group of a name, or a default if there is none. */
  function Lookup<T>(groups: seq<Group<T>>, name: string, none: T): T {
    var i := FindIndex(groups, name);
    if i == -1 then none else groups[i].items
  }

  function LookupCodes(tree: seq<Floor>, floor: string, lv2: string, lv4: string): seq<string> {
    Lookup(Lookup(Lookup(tree, floor, []), lv2, []), lv4, [])
  }

  lemma LookupGroup<T>(rows: seq<Row>, key: Row -> string, sub: seq<Row> -> T, name: string)
    ensures Lookup(GroupBy(rows, key, sub), name, sub([])) == sub(Matching(rows, key, name))
  {
    NamesMatch(rows, key, name);
    var groups := GroupBy(rows, key, sub);
    assert forall k | 0 <= k < |groups| :: groups[k].name == Names(rows, key)[k];
    hide FindIndex;
  }

  /** The rows of one path. */
  ghost function OnPath(rows: seq<Row>, floor: string, lv2: string, lv4: string): seq<Row> {
    if rows == [] then []
    else
      var last := rows[|rows| - 1];
      OnPath(rows[..|rows| - 1], floor, lv2, lv4)
      + if last.floor == floor && last.lv2 == lv2 && last.lv4 == lv4 then [last] else []
  }

  lemma MatchingAppends(rows: seq<Row>, r: Row, key: Row -> string, name: string)
    ensures Matching(rows + [r], key, name) == Matching(rows, key, name) + if key(r) == name then [r] else []
  {
    assert (rows + [r])[..|rows|] == rows;
  }

  lemma {:induction false} NestedMatching(rows: seq<Row>, floor: string, lv2: string, lv4: string)
    ensures Matching(Matching(Matching(rows, BY_FLOOR, floor), BY_LV2, lv2), BY_LV4, lv4)
         == OnPath(rows, floor, lv2, lv4)
  {
    if rows != [] {
      var init, r := rows[..|rows| - 1], rows[|rows| - 1];
      NestedMatching(init, floor, lv2, lv4);
      assert rows == init + [r];
      MatchingAppends(init, r, BY_FLOOR, floor);
      MatchingAppends(Matching(init, BY_FLOOR, floor), r, BY_LV2, lv2);
      MatchingAppends(Matching(Matching(init, BY_FLOOR, floor), BY_LV2, lv2), r, BY_LV4, lv4);
      hide Matching;
    }
  }

  /** Looking up a path gives the codes of exactly the rows with that path, in their order. */
  lemma LookupIsSelection(rows: seq<Row>, floor: string, lv2: string, lv4: string)
    ensures LookupCodes(Floors(rows), floor, lv2, lv4) == CodesOf(OnPath(rows, floor, lv2, lv4))
  {
    hide Lookup, Matching, Names, OnPath;
    NestedMatching(rows, floor, lv2, lv4);
    var inFloor := Matching(rows, BY_FLOOR, floor);
    LookupGroup(rows, BY_FLOOR, Sectors, floor);
    LookupGroup(inFloor, BY_LV2, Industries, lv2);
    LookupGroup(Matching(inFloor, BY_LV2, lv2), BY_LV4, CodesOf, lv4);
    NothingToGroup();
  }

  lemma NothingToGroup()
    ensures Sectors([]) == [] && Industries([]) == [] && CodesOf([]) == []
  {
  }

  /** Siblings have different names and every group has something in it. */
  ghost predicate NamesApart<T>(groups: seq<Group<T>>) {
    forall k, l | 0 <= k < l < |groups| :: groups[k].name != groups[l].name
  }

  lemma GroupsApart<T>(rows: seq<Row>, key: Row -> string, sub: seq<Row> -> T)
    ensures NamesApart(GroupBy(rows, key, sub))
    ensures forall k | 0 <= k < |GroupBy(rows, key, sub)| ::
              Matching(rows, key, GroupBy(rows, key, sub)[k].name) != []
    ensures rows != [] ==> GroupBy(rows, key, sub) != []
  {
    NamesAreDistinct(rows, key);
    forall k | 0 <= k < |Names(rows, key)|
      ensures Matching(rows, key, Names(rows, key)[k]) != []
    {
      NamesMatch(rows, key, Names(rows, key)[k]);
    }
  }

  lemma TreeIsTidy(rows: seq<Row>)
    ensures NamesApart(Floors(rows))
    ensures forall f | 0 <= f < |Floors(rows)| ::
              var floor := Floors(rows)[f];
              floor.items != [] && NamesApart(floor.items) &&
              forall s | 0 <= s < |floor.items| ::
                var sector := floor.items[s];
                sector.items != [] && NamesApart(sector.items) &&
                forall i | 0 <= i < |sector.items| :: sector.items[i].items != []
  {
    hide Matching, Names, NamesApart;
    GroupsApart(rows, BY_FLOOR, Sectors);
    forall f | 0 <= f < |Floors(rows)|
      ensures var floor := Floors(rows)[f];
              floor.items != [] && NamesApart(floor.items) &&
              forall s | 0 <= s < |floor.items| ::
                var sector := floor.items[s];
                sector.items != [] && NamesApart(sector.items) &&
                forall i | 0 <= i < |sector.items| :: sector.items[i].items != []
    {
      var inFloor := Matching(rows, BY_FLOOR, Floors(rows)[f].name);
      GroupsApart(inFloor, BY_LV2, Industries);
      forall s | 0 <= s < |Sectors(inFloor)|
        ensures var sector := Sectors(inFloor)[s];
                sector.items != [] && NamesApart(sector.items) &&
                forall i | 0 <= i < |sector.items| :: sector.items[i].items != []
      {
        var inSector := Matching(inFloor, BY_LV2, Sectors(inFloor)[s].name);
        GroupsApart(inSector, BY_LV4, CodesOf);
      }
    }
  }

  // ----- nothing is lost or added

  ghost function Flatten<T>(groups: seq<Group<T>>, rowsOf: Group<T> -> seq<Row>): seq<Row> {
    if groups == [] then [] else Flatten(groups[..|groups| - 1], rowsOf) + rowsOf(groups[|groups| - 1])
  }

  ghost function RowsOfIndustry(floor: string, lv2: string, i: Industry): seq<Row> {
    seq(|i.items|, k requires 0 <= k < |i.items| => Row(i.items[k], floor, lv2, i.name))
  }

  ghost function RowsOfSector(floor: string, s: Sector): seq<Row> {
    Flatten(s.items, i => RowsOfIndustry(floor, s.name, i))
  }

  ghost function RowsOfFloor(f: Floor): seq<Row> {
    Flatten(f.items, s => RowsOfSector(f.name, s))
  }

  ghost function RowsOfTree(tree: seq<Floor>): seq<Row> {
    Flatten(tree, RowsOfFloor)
  }

  ghost function Count(rows: seq<Row>, x: Row): nat {
    if rows == [] then 0 else Count(rows[..|rows| - 1], x) + if rows[|rows| - 1] == x then 1 else 0
  }

  lemma {:induction false} CountConcat(a: seq<Row>, b: seq<Row>, x: Row)
    ensures Count(a + b, x) == Count(a, x) + Count(b, x)
  {
    if b == [] {
      assert a + b == a;
    } else {
      CountConcat(a, b[..|b| - 1], x);
      assert (a + b)[..|a + b| - 1] == a + b[..|b| - 1];
    }
  }

  lemma {:induction false} CountMatching(rows: seq<Row>, key: Row -> string, name: string, x: Row)
    ensures Count(Matching(rows, key, name), x) == if key(x) == name then Count(rows, x) else 0
  {
    if rows != [] {
      CountMatching(rows[..|rows| - 1], key, name, x);
      var before := Matching(rows[..|rows| - 1], key, name);
      assert (before + [rows[|rows| - 1]])[..|before|] == before;
    }
  }

  lemma {:induction false} CountZero(rows: seq<Row>, x: Row)
    requires x !in rows
    ensures Count(rows, x) == 0
  {
    if rows != [] {
      CountZero(rows[..|rows| - 1], x);
    }
  }

  lemma {:induction false} NamesOfRows(rows: seq<Row>, key: Row -> string, x: Row)
    requires x in rows
    ensures key(x) in Names(rows, key)
  {
    var init, last := rows[..|rows| - 1], rows[|rows| - 1];
    if x != last {
      assert rows == init + [last];
      NamesOfRows(init, key, x);
    }
  }

  /** If each group flattens to as many copies of a row as were put into it, so do the groups
      together. */
  lemma {:induction false} CountGroups<T>(rows: seq<Row>, key: Row -> string, sub: seq<Row> -> T,
                                          rowsOf: Group<T> -> seq<Row>, k: nat, x: Row)
    requires k <= |Names(rows, key)|
    requires forall j | 0 <= j < k ::
               Count(rowsOf(GroupBy(rows, key, sub)[j]), x) == Count(Matching(rows, key, Names(rows, key)[j]), x)
    ensures Count(Flatten(GroupBy(rows, key, sub)[..k], rowsOf), x) ==
            if key(x) in Names(rows, key)[..k] then Count(rows, x) else 0
  {
    var groups, names := GroupBy(rows, key, sub), Names(rows, key);
    hide Matching, Names, GroupBy;
    if k > 0 {
      CountGroups(rows, key, sub, rowsOf, k - 1, x);
      assert groups[..k][..k - 1] == groups[..k - 1];
      assert names[..k] == names[..k - 1] + [names[k - 1]];
      CountConcat(Flatten(groups[..k - 1], rowsOf), rowsOf(groups[k - 1]), x);
      CountMatching(rows, key, names[k - 1], x);
      NamesAreDistinct(rows, key);
      hide Count, Flatten;
    }
  }

  lemma CountAllGroups<T>(rows: seq<Row>, key: Row -> string, sub: seq<Row> -> T, rowsOf: Group<T> -> seq<Row>, x: Row)
    requires forall j | 0 <= j < |Names(rows, key)| ::
               Count(rowsOf(GroupBy(rows, key, sub)[j]), x) == Count(Matching(rows, key, Names(rows, key)[j]), x)
    ensures Count(Flatten(GroupBy(rows, key, sub), rowsOf), x) == Count(rows, x)
  {
    var n := |Names(rows, key)|;
    CountGroups(rows, key, sub, rowsOf, n, x);
    assert GroupBy(rows, key, sub)[..n] == GroupBy(rows, key, sub) && Names(rows, key)[..n] == Names(rows, key);
    if x in rows {
      NamesOfRows(rows, key, x);
    } else {
      CountZero(rows, x);
    }
  }

  ghost predicate Shares(rows: seq<Row>, key: Row -> string, name: string) {
    forall k | 0 <= k < |rows| :: key(rows[k]) == name
  }

  lemma MatchingShares(rows: seq<Row>, key: Row -> string, name: string, other: Row -> string, otherName: string)
    ensures Shares(Matching(rows, key, name), key, name)
    ensures Shares(rows, other, otherName) ==> Shares(Matching(rows, key, name), other, otherName)
  {
    MatchingHasKey(rows, key, name);
  }

  lemma IndustriesKeepRows(rows: seq<Row>, floor: string, lv2: string, x: Row)
    requires Shares(rows, BY_FLOOR, floor) && Shares(rows, BY_LV2, lv2)
    ensures Count(Flatten(Industries(rows), i => RowsOfIndustry(floor, lv2, i)), x) == Count(rows, x)
  {
    forall j | 0 <= j < |Names(rows, BY_LV4)|
      ensures RowsOfIndustry(floor, lv2, Industries(rows)[j]) == Matching(rows, BY_LV4, Names(rows, BY_LV4)[j])
    {
      var name := Names(rows, BY_LV4)[j];
      MatchingShares(rows, BY_LV4, name, BY_FLOOR, floor);
      MatchingShares(rows, BY_LV4, name, BY_LV2, lv2);
    }
    CountAllGroups(rows, BY_LV4, CodesOf, i => RowsOfIndustry(floor, lv2, i), x);
  }

  lemma SectorsKeepRows(rows: seq<Row>, floor: string, x: Row)
    requires Shares(rows, BY_FLOOR, floor)
    ensures Count(Flatten(Sectors(rows), s => RowsOfSector(floor, s)), x) == Count(rows, x)
  {
    hide Count, Flatten, Shares;
    forall j | 0 <= j < |Names(rows, BY_LV2)|
      ensures Count(RowsOfSector(floor, Sectors(rows)[j]), x)
           == Count(Matching(rows, BY_LV2, Names(rows, BY_LV2)[j]), x)
    {
      var name := Names(rows, BY_LV2)[j];
      MatchingShares(rows, BY_LV2, name, BY_FLOOR, floor);
      IndustriesKeepRows(Matching(rows, BY_LV2, name), floor, name, x);
    }
    CountAllGroups(rows, BY_LV2, Industries, s => RowsOfSector(floor, s), x);
  }

  /** Flattening the tree gives back every row as often as the query returned it. */
  lemma TreeKeepsRows(rows: seq<Row>, x: Row)
    ensures Count(RowsOfTree(Floors(rows)), x) == Count(rows, x)
  {
    hide Count, Flatten, Shares;
    forall j | 0 <= j < |Names(rows, BY_FLOOR)|
      ensures Count(RowsOfFloor(Floors(rows)[j]), x) == Count(Matching(rows, BY_FLOOR, Names(rows, BY_FLOOR)[j]), x)
    {
      var name := Names(rows, BY_FLOOR)[j];
      MatchingShares(rows, BY_FLOOR, name, BY_FLOOR, name);
      SectorsKeepRows(Matching(rows, BY_FLOOR, name), name, x);
    }
    CountAllGroups(rows, BY_FLOOR, Sectors, RowsOfFloor, x);
  }

  // ----- order

  ghost function HasPath(floor: string, lv2: string, lv4: string): Row -> bool {
    (r: Row) => r.floor == floor && r.lv2 == lv2 && r.lv4 == lv4
  }

  /** The rows of a path are all the rows with that path, in their order. */
  lemma {:induction false} PathFilter(rows: seq<Row>, floor: string, lv2: string, lv4: string)
    ensures IsFilter(rows, OnPath(rows, floor, lv2, lv4), HasPath(floor, lv2, lv4))
  {
    hide IsFilter;
    if rows == [] {
      NothingKept(rows, HasPath(floor, lv2, lv4));
    } else {
      var init, last := rows[..|rows| - 1], rows[|rows| - 1];
      PathFilter(init, floor, lv2, lv4);
      FilterOneMore(init, OnPath(init, floor, lv2, lv4), HasPath(floor, lv2, lv4), last);
      assert rows == init + [last] && OnPath(init, floor, lv2, lv4) + [] == OnPath(init, floor, lv2, lv4);
    }
  }

  /** The groups of one level stand in the order in which their keys are first seen. */
  lemma {:induction false} NamesAreFirstSeen(rows: seq<Row>, key: Row -> string)
    ensures FirstSeen(rows, key, Names(rows, key))
  {
    hide FirstSeen;
    if rows == [] {
      NothingSeen(key);
    } else {
      var init, row := rows[..|rows| - 1], rows[|rows| - 1];
      NamesAreFirstSeen(init, key);
      FirstSeenOneMore(init, key, Names(init, key), row);
      assert rows == init + [row];
    }
  }

  /** The floors of the tree, in the order of their first rows. */
  lemma FloorsInOrder(rows: seq<Row>) returns (names: seq<string>)
    ensures FirstSeen(rows, BY_FLOOR, names) && |Floors(rows)| == |names|
    ensures forall k | 0 <= k < |names| :: Floors(rows)[k].name == names[k]
  {
    names := Names(rows, BY_FLOOR);
    NamesAreFirstSeen(rows, BY_FLOOR);
    hide FirstSeen;
  }
}
