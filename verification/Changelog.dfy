/** svn_changelog: the commit table and the file table built from the same log. */
module Changelog {
  import opened Text

  const SEP := "; "

  // ---- list cells

  lemma {:induction false} JoinMore(parts: seq<string>, more: string, sep: string)
    requires parts != []
    ensures Join(parts + [more], sep) == Join(parts, sep) + sep + more
  {
    if |parts| == 1 {
      assert (parts + [more])[1..] == [more];
    } else {
      assert (parts + [more])[1..] == parts[1..] + [more];
      JoinMore(parts[1..], more, sep);
      var a, b := parts[0] + sep, Join(parts[1..], sep);
      assert (a + b) + sep + more == a + (b + sep + more);
    }
  }

  /** What a list column of `items` cut after `shown` of them looks like. */
  function Cell(items: seq<string>, shown: nat): string
    requires shown <= |items|
  {
    if shown < |items| then
      Join(items[..shown], SEP) + SEP + "...(+" + ShowNat(|items| - shown) + " more, see the count column)"
    else Join(items, SEP)
  }

  /** The cell shows the first `shown` items, and says how many it leaves out if it leaves out any. */
  ghost predicate Tells(cell: string, items: seq<string>, shown: nat) {
    && shown <= |items|
    && (shown == |items| ==> cell == Join(items, SEP))
    && (shown < |items| ==>
          exists num :: AllDigits(num) && ReadNat(num) + shown == |items|
                        && cell == Join(items[..shown], SEP) + "; ...(+" + num + " more, see the count column)")
  }

  lemma CellTells(items: seq<string>, shown: nat)
    requires shown <= |items|
    ensures Tells(Cell(items, shown), items, shown)
  {
    hide Join, ShowNat, ReadNat;
    if shown < |items| {
      var head, num := Join(items[..shown], SEP), ShowNat(|items| - shown);
      assert head + SEP + "...(+" + num + " more, see the count column)"
          == head + "; ...(+" + num + " more, see the count column)" by {
        assert SEP + "...(+" == "; ...(+";
        assert head + SEP + "...(+" == head + (SEP + "...(+");
      }
    }
  }

  /** The longest beginning of the list whose joined text fits the limit. */
  ghost predicate LongestFit(items: seq<string>, limit: int, shown: nat) {
    && shown <= |items|
    && (forall k :: 0 < k <= shown ==> |Join(items[..k], SEP)| <= limit)
    && (forall k :: shown < k <= |items| ==> |Join(items[..k], SEP)| > limit)
  }

  lemma {:induction false} LongerJoin(items: seq<string>, j: nat, k: nat)
    requires j <= k <= |items|
    ensures |Join(items[..j], SEP)| <= |Join(items[..k], SEP)|
    decreases k
  {
    if j < k {
      LongerJoin(items, j, k - 1);
      assert items[..k] == items[..k - 1] + [items[k - 1]];
      if k > 1 {
        JoinMore(items[..k - 1], items[k - 1], SEP);
      }
    }
  }

  lemma JoinStep(items: seq<string>, k: nat)
    requires k < |items|
    ensures items[..k + 1] == items[..k] + [items[k]]
    ensures |Join(items[..k + 1], SEP)| == |Join(items[..k], SEP)| + |items[k]| + if k > 0 then |SEP| else 0
  {
    assert items[..k + 1] == items[..k] + [items[k]];
    if k > 0 {
      JoinMore(items[..k], items[k], SEP);
    }
  }

  lemma JoinNone()
    ensures Join([], SEP) == ""
  {}

  /** `join_list` */
  method JoinList(items: seq<string>, maxCell: int) returns (cell: string)
    ensures maxCell == 0 ==> cell == Join(items, SEP)
    ensures maxCell != 0 ==>
              exists shown ::
                LongestFit(items, maxCell, shown) && cell == Cell(items, shown) && Tells(cell, items, shown)
  {
    hide Join, ShowNat, Tells;
    if maxCell == 0 { return Join(items, SEP); }
    var out: seq<string>, used, shown := [], 0, 0;
    JoinNone();
    while shown < |items|
      invariant 0 <= shown <= |items| && out == items[..shown]
      invariant used == |Join(out, SEP)|
      invariant forall k :: 0 < k <= shown ==> |Join(items[..k], SEP)| <= maxCell
    {
      var it := items[shown];
      JoinStep(items, shown);
      var add := |it| + if out != [] then |SEP| else 0;
      if used + add > maxCell { break; }
      out := out + [it];
      used := used + add;
      shown := shown + 1;
    }
    if shown < |items| {
      forall k | shown < k <= |items| ensures |Join(items[..k], SEP)| > maxCell {
        LongerJoin(items, shown + 1, k);
      }
    }
    assert LongestFit(items, maxCell, shown);
    assert items[..|items|] == items;
    cell := if shown < |items| then Join(out, SEP) + SEP + "...(+" + ShowNat(|items| - shown)
        + " more, see the count column)"
            else Join(out, SEP);
    CellTells(items, shown);
  }

  // ---- order

  /** Python's order on strings. */
  predicate StrLe(a: string, b: string) {
    a == "" || (b != "" && (a[0] < b[0] || (a[0] == b[0] && StrLe(a[1..], b[1..]))))
  }

  lemma {:induction false} StrLeTotal(a: string, b: string)
    ensures StrLe(a, b) || StrLe(b, a)
    ensures StrLe(a, b) && StrLe(b, a) ==> a == b
  {
    if a != "" && b != "" && a[0] == b[0] {
      StrLeTotal(a[1..], b[1..]);
      assert a == [a[0]] + a[1..] && b == [b[0]] + b[1..];
    }
  }

  lemma {:induction false} StrLeTransitive(a: string, b: string, c: string)
    requires StrLe(a, b) && StrLe(b, c)
    ensures StrLe(a, c)
  {
    if a != "" && a[0] == b[0] == c[0] {
      StrLeTransitive(a[1..], b[1..], c[1..]);
    }
  }

  /** One path of one revision. */
  datatype Change = Change(rev: nat, date: string, author: string, action: string, path: string)

  /** The key `(path, revision)`. */
  predicate ChangeLe(a: Change, b: Change) {
    if a.path == b.path then a.rev <= b.rev else StrLe(a.path, b.path)
  }

  function InsertChange(c: Change, cs: seq<Change>): (r: seq<Change>)
    ensures multiset(r) == multiset(cs) + multiset{c}
  {
    if cs == [] || ChangeLe(c, cs[0]) then [c] + cs
    else
      assert cs == [cs[0]] + cs[1..];
      [cs[0]] + InsertChange(c, cs[1..])
  }

  /** `sorted(changes, key=(path, revision))`, stable. */
  function SortChanges(cs: seq<Change>): (r: seq<Change>)
    ensures multiset(r) == multiset(cs)
  {
    if cs == [] then []
    else
      assert cs == [cs[0]] + cs[1..];
      InsertChange(cs[0], SortChanges(cs[1..]))
  }

  predicate SortedChanges(cs: seq<Change>) { forall i, j :: 0 <= i < j < |cs| ==> ChangeLe(cs[i], cs[j]) }

  lemma ChangeLeOrder(a: Change, b: Change, c: Change)
    ensures ChangeLe(a, b) || ChangeLe(b, a)
    ensures ChangeLe(a, b) && ChangeLe(b, c) ==> ChangeLe(a, c)
  {
    StrLeTotal(a.path, b.path);
    if ChangeLe(a, b) && ChangeLe(b, c) {
      if a.path != b.path && b.path != c.path {
        StrLeTransitive(a.path, b.path, c.path);
        StrLeTotal(a.path, b.path);
      }
    }
  }

  lemma {:induction false} InsertSorted(c: Change, cs: seq<Change>)
    requires SortedChanges(cs)
    ensures SortedChanges(InsertChange(c, cs))
  {
    hide ChangeLe;
    if cs != [] {
      ChangeLeOrder(c, cs[0], cs[0]);
      if ChangeLe(c, cs[0]) {
        forall j | 0 <= j < |cs| ensures ChangeLe(c, cs[j]) {
          ChangeLeOrder(c, cs[0], cs[j]);
        }
      } else {
        InsertSorted(c, cs[1..]);
        var r := InsertChange(c, cs[1..]);
        forall j | 0 <= j < |r| ensures ChangeLe(cs[0], r[j]) {
          assert r[j] in multiset(r);
          assert r[j] in multiset(cs[1..]) + multiset{c};
        }
      }
    }
  }

  lemma {:induction false} SortSorted(cs: seq<Change>)
    ensures SortedChanges(SortChanges(cs))
  {
    hide InsertChange;
    if cs != [] {
      SortSorted(cs[1..]);
      InsertSorted(cs[0], SortChanges(cs[1..]));
    }
  }

  // ---- groups

  function OfPath(cs: seq<Change>, path: string): seq<Change> {
    if cs == [] then []
    else (if cs[0].path == path then [cs[0]] else []) + OfPath(cs[1..], path)
  }

  lemma NoGroups()
    ensures forall p :: OfPath([], p) == []
  {}

  lemma {:induction false} OfPathMore(cs: seq<Change>, c: Change, path: string)
    ensures OfPath(cs + [c], path) == OfPath(cs, path) + if c.path == path then [c] else []
  {
    if cs == [] {
      assert [] + [c] == [c] && [c][1..] == [];
    } else {
      assert (cs + [c])[1..] == cs[1..] + [c];
      OfPathMore(cs[1..], c, path);
      var x := if cs[0].path == path then [cs[0]] else [];
      assert x + (OfPath(cs[1..], path) + if c.path == path then [c] else [])
          == (x + OfPath(cs[1..], path)) + if c.path == path then [c] else [];
    }
  }

  lemma {:induction false} OfPathMembers(cs: seq<Change>, path: string)
    ensures forall c :: c in OfPath(cs, path) <==> c in cs && c.path == path
  {
    if cs != [] {
      OfPathMembers(cs[1..], path);
    }
  }

  lemma {:induction false} OfPathSorted(cs: seq<Change>, path: string)
    requires SortedChanges(cs)
    ensures forall i, j :: 0 <= i < j < |OfPath(cs, path)| ==> OfPath(cs, path)[i].rev <= OfPath(cs, path)[j].rev
  {
    if cs != [] {
      OfPathSorted(cs[1..], path);
      OfPathMembers(cs[1..], path);
      var rest := OfPath(cs[1..], path);
      if cs[0].path == path {
        forall j | 0 <= j < |rest| ensures cs[0].rev <= rest[j].rev {
          assert rest[j] in rest;
          assert rest[j] in cs[1..];
          var k :| 0 <= k < |cs| - 1 && cs[1..][k] == rest[j];
          assert ChangeLe(cs[0], cs[k + 1]);
        }
      }
    }
  }

  /** Group sizes add up to the whole when every path has one group. */
  function SizesOf(cs: seq<Change>, paths: seq<string>): nat {
    if paths == [] then 0 else |OfPath(cs, paths[0])| + SizesOf(cs, paths[1..])
  }

  predicate Distinct(paths: seq<string>) { forall i, j :: 0 <= i < j < |paths| ==> paths[i] != paths[j] }

  lemma {:induction false} SizesMore(cs: seq<Change>, c: Change, paths: seq<string>)
    requires Distinct(paths)
    ensures SizesOf(cs + [c], paths) == SizesOf(cs, paths) + if c.path in paths then 1 else 0
  {
    hide OfPath;
    if paths != [] {
      OfPathMore(cs, c, paths[0]);
      SizesMore(cs, c, paths[1..]);
      assert c.path in paths <==> c.path == paths[0] || c.path in paths[1..];
    }
  }

  lemma {:induction false} SizesNone(paths: seq<string>)
    ensures SizesOf([], paths) == 0
  {
    if paths != [] {
      SizesNone(paths[1..]);
    }
  }

  lemma {:induction false} SizesAll(cs: seq<Change>, paths: seq<string>)
    requires Distinct(paths) && forall c :: c in cs ==> c.path in paths
    ensures SizesOf(cs, paths) == |cs|
  {
    if cs == [] {
      SizesNone(paths);
    } else {
      var front, last := cs[..|cs| - 1], cs[|cs| - 1];
      assert cs == front + [last];
      SizesAll(front, paths);
      SizesMore(front, last, paths);
    }
  }

  // ---- rows

  /** A row of the file table; `actions` counts each action. */
  datatype Row = Row(path: string, revs: seq<nat>, actions: multiset<string>, firstRev: nat, lastRev: nat,
      firstDate: string, lastDate: string)

  predicate Ascending(revs: seq<nat>) { forall i, j :: 0 <= i < j < |revs| ==> revs[i] < revs[j] }

  function InsertRev(rev: nat, revs: seq<nat>): seq<nat> {
    if revs == [] || rev < revs[0] then [rev] + revs
    else if rev == revs[0] then revs
    else [revs[0]] + InsertRev(rev, revs[1..])
  }

  lemma {:induction false} InsertRevKeeps(rev: nat, revs: seq<nat>)
    requires Ascending(revs)
    ensures Ascending(InsertRev(rev, revs))
    ensures forall r :: r in InsertRev(rev, revs) <==> r == rev || r in revs
  {
    if revs != [] && rev > revs[0] {
      var h, rest := revs[0], revs[1..];
      var t := InsertRev(rev, rest);
      assert forall i :: 0 <= i < |rest| ==> rest[i] == revs[i + 1];
      InsertRevKeeps(rev, rest);
      assert revs == [h] + rest && InsertRev(rev, revs) == [h] + t;
      hide InsertRev;
      forall i | 0 <= i < |t| ensures h < t[i] {
        assert t[i] in t;
      }
    }
  }

  /** `sorted(set(revision))` */
  function RevsOf(rs: seq<Change>): seq<nat> {
    if rs == [] then [] else InsertRev(rs[0].rev, RevsOf(rs[1..]))
  }

  lemma {:induction false} RevsExact(rs: seq<Change>)
    ensures Ascending(RevsOf(rs))
    ensures forall r :: r in RevsOf(rs) <==> exists c :: c in rs && c.rev == r
  {
    hide InsertRev;
    if rs != [] {
      RevsExact(rs[1..]);
      InsertRevKeeps(rs[0].rev, RevsOf(rs[1..]));
      forall r ensures r in RevsOf(rs) <==> exists c :: c in rs && c.rev == r {
        if r == rs[0].rev {
          assert rs[0] in rs;
        }
        if c :| c in rs && c.rev == r {
          if c != rs[0] {
            assert c in rs[1..];
          }
        }
        if r in RevsOf(rs[1..]) {
          var c :| c in rs[1..] && c.rev == r;
          assert c in rs;
        }
      }
    }
  }

  function ActionsOf(rs: seq<Change>): (m: multiset<string>)
    ensures |m| == |rs|
  {
    if rs == [] then multiset{} else multiset{rs[0].action} + ActionsOf(rs[1..])
  }

  function RowOf(path: string, rs: seq<Change>): Row
    requires rs != []
  {
    RevsNonEmpty(rs);
    var revs := RevsOf(rs);
    Row(path, revs, ActionsOf(rs), revs[0], revs[|revs| - 1], rs[0].date, rs[|rs| - 1].date)
  }

  lemma RevsNonEmpty(rs: seq<Change>)
    requires rs != []
    ensures RevsOf(rs) != []
  {}

  /** The key `(-revision_count, path)`. */
  predicate RowLe(a: Row, b: Row) {
    |a.revs| > |b.revs| || (|a.revs| == |b.revs| && StrLe(a.path, b.path))
  }

  function InsertRow(r: Row, rows: seq<Row>): (s: seq<Row>)
    ensures multiset(s) == multiset(rows) + multiset{r}
  {
    if rows == [] || RowLe(r, rows[0]) then [r] + rows
    else
      assert rows == [rows[0]] + rows[1..];
      [rows[0]] + InsertRow(r, rows[1..])
  }

  function SortRows(rows: seq<Row>): (s: seq<Row>)
    ensures multiset(s) == multiset(rows)
  {
    if rows == [] then []
    else
      assert rows == [rows[0]] + rows[1..];
      InsertRow(rows[0], SortRows(rows[1..]))
  }

  predicate SortedRows(rows: seq<Row>) { forall i, j :: 0 <= i < j < |rows| ==> RowLe(rows[i], rows[j]) }

  lemma {:induction false} InsertRowSorted(r: Row, rows: seq<Row>)
    requires SortedRows(rows)
    ensures SortedRows(InsertRow(r, rows))
  {
    if rows != [] {
      StrLeTotal(r.path, rows[0].path);
      if RowLe(r, rows[0]) {
        forall j | 0 <= j < |rows| ensures RowLe(r, rows[j]) {
          if |r.revs| == |rows[0].revs| == |rows[j].revs| && j > 0 {
            StrLeTransitive(r.path, rows[0].path, rows[j].path);
          }
        }
      } else {
        InsertRowSorted(r, rows[1..]);
        var s := InsertRow(r, rows[1..]);
        forall j | 0 <= j < |s| ensures RowLe(rows[0], s[j]) {
          assert s[j] in multiset(s);
          assert s[j] in multiset(rows[1..]) + multiset{r};
        }
      }
    }
  }

  lemma {:induction false} SortRowsSorted(rows: seq<Row>)
    ensures SortedRows(SortRows(rows))
  {
    hide InsertRow;
    if rows != [] {
      SortRowsSorted(rows[1..]);
      InsertRowSorted(rows[0], SortRows(rows[1..]));
    }
  }

  // ---- the file table

  /** What a row must say about its path. */
  ghost predicate RowRight(changes: seq<Change>, row: Row) {
    && Ascending(row.revs) && row.revs != []
    && (forall r :: r in row.revs <==> exists c :: c in changes && c.path == row.path && c.rev == r)
    && row.firstRev == row.revs[0] && row.lastRev == row.revs[|row.revs| - 1]
    && (exists c :: c in changes && c.path == row.path && c.rev == row.firstRev && c.date == row.firstDate)
    && (exists c :: c in changes && c.path == row.path && c.rev == row.lastRev && c.date == row.lastDate)
    && (forall action :: row.actions[action] == CountOf(changes, row.path, action))
  }

  /** How many changes take `action` on `path`. */
  function CountOf(cs: seq<Change>, path: string, action: string): nat {
    if cs == [] then 0
    else (if cs[0].path == path && cs[0].action == action then 1 else 0) + CountOf(cs[1..], path, action)
  }

  lemma {:induction false} CountOfInsert(c: Change, cs: seq<Change>, path: string, action: string)
    ensures CountOf(InsertChange(c, cs), path, action)
         == CountOf(cs, path, action) + if c.path == path && c.action == action then 1 else 0
  {
    hide ChangeLe;
    if cs != [] && !ChangeLe(c, cs[0]) {
      CountOfInsert(c, cs[1..], path, action);
    }
  }

  lemma {:induction false} CountOfSort(cs: seq<Change>, path: string, action: string)
    ensures CountOf(SortChanges(cs), path, action) == CountOf(cs, path, action)
  {
    hide InsertChange;
    if cs != [] {
      CountOfSort(cs[1..], path, action);
      CountOfInsert(cs[0], SortChanges(cs[1..]), path, action);
    }
  }

  lemma {:induction false} ActionsCount(cs: seq<Change>, path: string, action: string)
    ensures ActionsOf(OfPath(cs, path))[action] == CountOf(cs, path, action)
  {
    if cs != [] {
      ActionsCount(cs[1..], path, action);
      var rest := OfPath(cs[1..], path);
      assert [] + rest == rest && ([cs[0]] + rest)[1..] == rest;
    }
  }

  function ActionTotal(rows: seq<Row>): nat {
    if rows == [] then 0 else |rows[0].actions| + ActionTotal(rows[1..])
  }

  lemma GroupRow(changes: seq<Change>, path: string)
    requires OfPath(SortChanges(changes), path) != []
    ensures var row := RowOf(path, OfPath(SortChanges(changes), path));
            RowRight(changes, row) && |row.actions| == |OfPath(SortChanges(changes), path)|
  {
    hide SortChanges, OfPath, RevsOf, ActionsOf, CountOf;
    var sorted := SortChanges(changes);
    var rs := OfPath(sorted, path);
    var row := RowOf(path, rs);
    SortSorted(changes);
    OfPathSorted(sorted, path);
    OfPathMembers(sorted, path);
    forall c ensures c in rs <==> c in changes && c.path == path {
      assert c in sorted <==> c in multiset(sorted);
      assert c in changes <==> c in multiset(changes);
    }
    RevsExact(rs);
    RevsNonEmpty(rs);
    var first, last := rs[0], rs[|rs| - 1];
    assert first in rs && last in rs;
    assert first.rev in row.revs && last.rev in row.revs;
    assert row.revs[0] in row.revs && row.revs[|row.revs| - 1] in row.revs;
    EndsMatch(rs, row.revs);
    forall action ensures row.actions[action] == CountOf(changes, path, action) {
      ActionsCount(sorted, path, action);
      CountOfSort(changes, path, action);
    }
  }

  /** In rising order the first and last changes carry the least and greatest revision. */
  lemma EndsMatch(rs: seq<Change>, revs: seq<nat>)
    requires rs != [] && revs != [] && Ascending(revs)
    requires forall i, j :: 0 <= i < j < |rs| ==> rs[i].rev <= rs[j].rev
    requires forall r :: r in revs <==> exists c :: c in rs && c.rev == r
    ensures revs[0] == rs[0].rev && revs[|revs| - 1] == rs[|rs| - 1].rev
  {
    var first, last := rs[0], rs[|rs| - 1];
    assert first in rs && last in rs;
    assert first.rev in revs && last.rev in revs;
    var a :| 0 <= a < |revs| && revs[a] == first.rev;
    var b :| 0 <= b < |revs| && revs[b] == last.rev;
    assert revs[0] in revs && revs[|revs| - 1] in revs;
    var c :| c in rs && c.rev == revs[0];
    var d :| d in rs && d.rev == revs[|revs| - 1];
    var i :| 0 <= i < |rs| && rs[i] == c;
    var j :| 0 <= j < |rs| && rs[j] == d;
  }

  /** The rows, one a path, in the order of the dictionary. */
  function RowsOf(sorted: seq<Change>, paths: seq<string>): (rows: seq<Row>)
    requires forall p :: p in paths ==> OfPath(sorted, p) != []
    ensures |rows| == |paths|
  {
    if paths == [] then [] else [RowOf(paths[0], OfPath(sorted, paths[0]))] + RowsOf(sorted, paths[1..])
  }

  lemma {:induction false} RowsOfAt(sorted: seq<Change>, paths: seq<string>, i: nat)
    requires i < |paths| && forall p :: p in paths ==> OfPath(sorted, p) != []
    ensures RowsOf(sorted, paths)[i] == RowOf(paths[i], OfPath(sorted, paths[i]))
  {
    hide RowOf, OfPath;
    if i > 0 {
      RowsOfAt(sorted, paths[1..], i - 1);
    }
  }

  lemma {:induction false} RowsTotal(sorted: seq<Change>, paths: seq<string>)
    requires forall p :: p in paths ==> OfPath(sorted, p) != []
    ensures ActionTotal(RowsOf(sorted, paths)) == SizesOf(sorted, paths)
  {
    hide OfPath, RevsOf;
    if paths != [] {
      RowsTotal(sorted, paths[1..]);
      assert RowsOf(sorted, paths)[1..] == RowsOf(sorted, paths[1..]);
    }
  }

  lemma {:induction false} TotalOfInsert(r: Row, rows: seq<Row>)
    ensures ActionTotal(InsertRow(r, rows)) == |r.actions| + ActionTotal(rows)
  {
    hide RowLe;
    if rows != [] && !RowLe(r, rows[0]) {
      TotalOfInsert(r, rows[1..]);
      assert ([rows[0]] + InsertRow(r, rows[1..]))[1..] == InsertRow(r, rows[1..]);
    } else {
      assert ([r] + rows)[1..] == rows;
    }
  }

  lemma {:induction false} TotalOfSort(rows: seq<Row>)
    ensures ActionTotal(SortRows(rows)) == ActionTotal(rows)
  {
    hide InsertRow;
    if rows != [] {
      TotalOfSort(rows[1..]);
      TotalOfInsert(rows[0], SortRows(rows[1..]));
    }
  }

  /** The whole file table: one row a path, each right, most revisions first. */
  ghost predicate TableRight(changes: seq<Change>, rows: seq<Row>) {
    && SortedRows(rows)
    && (forall i :: 0 <= i < |rows| ==> RowRight(changes, rows[i]))
    && (forall i, j :: 0 <= i < j < |rows| ==> rows[i].path != rows[j].path)
    && (forall c :: c in changes ==> exists i :: 0 <= i < |rows| && rows[i].path == c.path)
    && ActionTotal(rows) == |changes|
  }

  /** The dictionary by path, in the order of first appearance. */
  method GroupByPath(sorted: seq<Change>) returns (paths: seq<string>, perPath: map<string, seq<Change>>)
    ensures Distinct(paths) && perPath.Keys == set p | p in paths
    ensures forall p :: p in paths ==> perPath[p] == OfPath(sorted, p) && perPath[p] != []
    ensures forall i :: 0 <= i < |sorted| ==> sorted[i].path in paths
  {
    hide OfPath;
    paths, perPath := [], map[];
    assert sorted[..0] == [];
    NoGroups();
    for k := 0 to |sorted|
      invariant Distinct(paths) && perPath.Keys == set p | p in paths
      invariant forall p :: p in paths ==> perPath[p] == OfPath(sorted[..k], p) && perPath[p] != []
      invariant forall i :: 0 <= i < k ==> sorted[i].path in paths
      invariant forall p :: p !in paths ==> OfPath(sorted[..k], p) == []
    {
      var r := sorted[k];
      assert sorted[..k + 1] == sorted[..k] + [r];
      forall p ensures OfPath(sorted[..k + 1], p) == OfPath(sorted[..k], p) + if r.path == p then [r] else [] {
        OfPathMore(sorted[..k], r, p);
      }
      if r.path !in perPath {
        paths := paths + [r.path];
        perPath := perPath[r.path := []];
      }
      perPath := perPath[r.path := perPath[r.path] + [r]];
    }
    assert sorted[..|sorted|] == sorted;
  }

  /** `build_files` */
  method BuildFiles(changes: seq<Change>) returns (rows: seq<Row>)
    ensures TableRight(changes, rows)
  {
    hide SortChanges, OfPath, RowOf, SortRows;
    var sorted := SortChanges(changes);
    var paths, perPath := GroupByPath(sorted);
    var list: seq<Row> := [];
    for k := 0 to |paths|
      invariant list == RowsOf(sorted, paths)[..k]
    {
      assert paths[k] in paths;
      RowsOfAt(sorted, paths, k);
      list := list + [RowOf(paths[k], perPath[paths[k]])];
    }
    rows := SortRows(list);
    TableOfRows(changes, sorted, paths, list);
  }

  lemma TableOfRows(changes: seq<Change>, sorted: seq<Change>, paths: seq<string>, list: seq<Row>)
    requires sorted == SortChanges(changes) && Distinct(paths)
    requires forall p :: p in paths ==> OfPath(sorted, p) != []
    requires forall i :: 0 <= i < |sorted| ==> sorted[i].path in paths
    requires list == RowsOf(sorted, paths)
    ensures TableRight(changes, SortRows(list))
  {
    hide SortChanges, OfPath, SortRows, RowRight, RowsOf, RowLe;
    var rows := SortRows(list);
    SortRowsSorted(list);
    SizesAll(sorted, paths);
    RowsTotal(sorted, paths);
    TotalOfSort(list);
    assert |sorted| == |changes| by { assert |multiset(sorted)| == |multiset(changes)|; }
    assert |rows| == |list| by { assert |multiset(rows)| == |multiset(list)|; }
    forall i | 0 <= i < |list| ensures RowRight(changes, list[i]) && list[i].path == paths[i] {
      assert paths[i] in paths;
      RowsOfAt(sorted, paths, i);
      GroupRow(changes, paths[i]);
      RowPath(paths[i], OfPath(sorted, paths[i]));
    }
    forall i | 0 <= i < |rows| ensures RowRight(changes, rows[i]) {
      assert rows[i] in multiset(rows);
      assert rows[i] in multiset(list);
    }
    forall i, j | 0 <= i < j < |rows| ensures rows[i].path != rows[j].path {
      SortKeepsDistinct(list, i, j);
    }
    forall c | c in changes ensures exists i :: 0 <= i < |rows| && rows[i].path == c.path {
      assert c in multiset(changes) && c in multiset(sorted);
      var k :| 0 <= k < |sorted| && sorted[k] == c;
      var m :| 0 <= m < |paths| && paths[m] == c.path;
      assert list[m] in multiset(list) && list[m] in multiset(rows);
    }
  }

  lemma RowPath(path: string, rs: seq<Change>)
    requires rs != []
    ensures RowOf(path, rs).path == path
  {
    hide RevsOf, ActionsOf;
  }

  /** Sorting rows of distinct paths leaves them distinct. */
  lemma SortKeepsDistinct(list: seq<Row>, i: nat, j: nat)
    requires forall a, b :: 0 <= a < b < |list| ==> list[a].path != list[b].path
    requires i < j < |SortRows(list)|
    ensures SortRows(list)[i].path != SortRows(list)[j].path
  {
    hide SortRows;
    var rows := SortRows(list);
    if rows[i].path == rows[j].path {
      assert rows[i] in multiset(list) && rows[j] in multiset(list);
      var a :| 0 <= a < |list| && list[a] == rows[i];
      var b :| 0 <= b < |list| && list[b] == rows[j];
      assert rows[i] == rows[j];
      MultisetTwice(rows, i, j);
      OnceOnly(list, a);
    }
  }

  lemma MultisetTwice(rows: seq<Row>, i: nat, j: nat)
    requires i < j < |rows| && rows[i] == rows[j]
    ensures multiset(rows)[rows[i]] >= 2
  {
    assert rows == rows[..i] + [rows[i]] + rows[i + 1..j] + [rows[j]] + rows[j + 1..];
  }

  lemma OnceOnly(list: seq<Row>, a: nat)
    requires a < |list| && forall b :: 0 <= b < |list| && b != a ==> list[b] != list[a]
    ensures multiset(list)[list[a]] == 1
  {
    assert list == list[..a] + [list[a]] + list[a + 1..];
    assert list[a] !in multiset(list[..a]) && list[a] !in multiset(list[a + 1..]);
  }

  // ---- the commit table

  datatype PathNode = PathNode(action: string, path: string)

  /** One `logentry` of the log. */
  datatype Entry = Entry(rev: nat, date: string, author: string, paths: seq<PathNode>)

  datatype CommitRow = CommitRow(rev: nat, filesCount: nat, files: string)

  function ChangesOf(e: Entry, nodes: seq<PathNode>): (r: seq<Change>)
    ensures |r| == |nodes|
  {
    if nodes == [] then []
    else [Change(e.rev, e.date, e.author, nodes[0].action, nodes[0].path)] + ChangesOf(e, nodes[1..])
  }

  function AllChanges(entries: seq<Entry>): seq<Change> {
    if entries == [] then [] else ChangesOf(entries[0], entries[0].paths) + AllChanges(entries[1..])
  }

  function Labels(rows: seq<Change>): (r: seq<string>)
    ensures |r| == |rows|
  {
    if rows == [] then [] else [rows[0].action + ":" + rows[0].path] + Labels(rows[1..])
  }

  /** The key `(revision, path)`. */
  predicate RevPathLe(a: Change, b: Change) { if a.rev == b.rev then StrLe(a.path, b.path) else a.rev < b.rev }

  function InsertByRev(c: Change, cs: seq<Change>): (r: seq<Change>)
    ensures multiset(r) == multiset(cs) + multiset{c}
  {
    if cs == [] || RevPathLe(c, cs[0]) then [c] + cs
    else
      assert cs == [cs[0]] + cs[1..];
      [cs[0]] + InsertByRev(c, cs[1..])
  }

  /** `changes.sort(key=(revision, path))` */
  function SortByRev(cs: seq<Change>): (r: seq<Change>)
    ensures multiset(r) == multiset(cs)
  {
    if cs == [] then []
    else
      assert cs == [cs[0]] + cs[1..];
      InsertByRev(cs[0], SortByRev(cs[1..]))
  }

  predicate SortedByRev(cs: seq<Change>) { forall i, j :: 0 <= i < j < |cs| ==> RevPathLe(cs[i], cs[j]) }

  lemma RevPathLeOrder(a: Change, b: Change, c: Change)
    ensures RevPathLe(a, b) || RevPathLe(b, a)
    ensures RevPathLe(a, b) && RevPathLe(b, c) ==> RevPathLe(a, c)
  {
    StrLeTotal(a.path, b.path);
    if StrLe(a.path, b.path) && StrLe(b.path, c.path) {
      StrLeTransitive(a.path, b.path, c.path);
    }
  }

  lemma {:induction false} InsertByRevSorted(c: Change, cs: seq<Change>)
    requires SortedByRev(cs)
    ensures SortedByRev(InsertByRev(c, cs))
  {
    hide RevPathLe;
    if cs != [] {
      RevPathLeOrder(c, cs[0], cs[0]);
      if RevPathLe(c, cs[0]) {
        forall j | 0 <= j < |cs| ensures RevPathLe(c, cs[j]) {
          RevPathLeOrder(c, cs[0], cs[j]);
        }
      } else {
        InsertByRevSorted(c, cs[1..]);
        var r := InsertByRev(c, cs[1..]);
        forall j | 0 <= j < |r| ensures RevPathLe(cs[0], r[j]) {
          assert r[j] in multiset(r);
          assert r[j] in multiset(cs[1..]) + multiset{c};
        }
      }
    }
  }

  lemma {:induction false} SortByRevSorted(cs: seq<Change>)
    ensures SortedByRev(SortByRev(cs))
  {
    hide InsertByRev;
    if cs != [] {
      SortByRevSorted(cs[1..]);
      InsertByRevSorted(cs[0], SortByRev(cs[1..]));
    }
  }

  function InsertCommit(c: CommitRow, cs: seq<CommitRow>): (r: seq<CommitRow>)
    ensures multiset(r) == multiset(cs) + multiset{c}
  {
    if cs == [] || c.rev <= cs[0].rev then [c] + cs
    else
      assert cs == [cs[0]] + cs[1..];
      [cs[0]] + InsertCommit(c, cs[1..])
  }

  /** `commits.sort(key=revision)` */
  function SortCommits(cs: seq<CommitRow>): (r: seq<CommitRow>)
    ensures multiset(r) == multiset(cs)
  {
    if cs == [] then []
    else
      assert cs == [cs[0]] + cs[1..];
      InsertCommit(cs[0], SortCommits(cs[1..]))
  }

  predicate SortedCommits(cs: seq<CommitRow>) { forall i, j :: 0 <= i < j < |cs| ==> cs[i].rev <= cs[j].rev }

  lemma {:induction false} InsertCommitSorted(c: CommitRow, cs: seq<CommitRow>)
    requires SortedCommits(cs)
    ensures SortedCommits(InsertCommit(c, cs))
  {
    if cs != [] && c.rev > cs[0].rev {
      InsertCommitSorted(c, cs[1..]);
      var r := InsertCommit(c, cs[1..]);
      forall j | 0 <= j < |r| ensures cs[0].rev <= r[j].rev {
        assert r[j] in multiset(r);
        assert r[j] in multiset(cs[1..]) + multiset{c};
      }
    }
  }

  lemma {:induction false} SortCommitsSorted(cs: seq<CommitRow>)
    ensures SortedCommits(SortCommits(cs))
  {
    hide InsertCommit;
    if cs != [] {
      SortCommitsSorted(cs[1..]);
      InsertCommitSorted(cs[0], SortCommits(cs[1..]));
    }
  }

  function FilesTotal(commits: seq<CommitRow>): nat {
    if commits == [] then 0 else commits[0].filesCount + FilesTotal(commits[1..])
  }

  lemma {:induction false} FilesTotalMore(commits: seq<CommitRow>, c: CommitRow)
    ensures FilesTotal(commits + [c]) == FilesTotal(commits) + c.filesCount
  {
    if commits == [] {
      assert [] + [c] == [c] && [c][1..] == [];
    } else {
      assert (commits + [c])[1..] == commits[1..] + [c];
      FilesTotalMore(commits[1..], c);
    }
  }

  lemma {:induction false} FilesTotalInsert(c: CommitRow, cs: seq<CommitRow>)
    ensures FilesTotal(InsertCommit(c, cs)) == c.filesCount + FilesTotal(cs)
  {
    if cs != [] && c.rev > cs[0].rev {
      FilesTotalInsert(c, cs[1..]);
      assert ([cs[0]] + InsertCommit(c, cs[1..]))[1..] == InsertCommit(c, cs[1..]);
    } else {
      assert ([c] + cs)[1..] == cs;
    }
  }

  lemma {:induction false} FilesTotalSort(cs: seq<CommitRow>)
    ensures FilesTotal(SortCommits(cs)) == FilesTotal(cs)
  {
    hide InsertCommit;
    if cs != [] {
      FilesTotalSort(cs[1..]);
      FilesTotalInsert(cs[0], SortCommits(cs[1..]));
    }
  }

  /** A commit row's file column is its entry's paths, sorted, within the cell limit. */
  ghost predicate CommitRight(e: Entry, row: CommitRow, maxCell: int) {
    var labels := Labels(SortChanges(ChangesOf(e, e.paths)));
    && row.rev == e.rev && row.filesCount == |e.paths|
    && (if maxCell == 0 then row.files == Join(labels, SEP)
        else exists shown :: LongestFit(labels, maxCell, shown) && row.files == Cell(labels, shown))
  }

  lemma {:induction false} AllChangesMore(entries: seq<Entry>, n: nat)
    requires n < |entries|
    ensures AllChanges(entries[..n + 1]) == AllChanges(entries[..n]) + ChangesOf(entries[n], entries[n].paths)
  {
    hide ChangesOf;
    if n == 0 {
      assert entries[..1] == [entries[0]] && entries[..1][1..] == [] && entries[..0] == [];
    } else {
      AllChangesMore(entries[1..], n - 1);
      assert entries[..n + 1][1..] == entries[1..][..n] && entries[..n][1..] == entries[1..][..n - 1];
      var a := ChangesOf(entries[0], entries[0].paths);
      var b := AllChanges(entries[1..][..n - 1]);
      var c := ChangesOf(entries[n], entries[n].paths);
      assert a + (b + c) == (a + b) + c;
    }
  }

  /** `parse_log`: one commit row an entry, by revision, and every change, by revision and path. */
  method ParseLog(entries: seq<Entry>, maxCell: int) returns (commits: seq<CommitRow>, changes: seq<Change>)
    ensures multiset(changes) == multiset(AllChanges(entries))
    ensures exists rows: seq<CommitRow> ::
              |rows| == |entries| && multiset(commits) == multiset(rows)
              && forall i :: 0 <= i < |rows| ==> CommitRight(entries[i], rows[i], maxCell)
    ensures FilesTotal(commits) == |changes|
    ensures SortedCommits(commits) && SortedByRev(changes)
  {
    hide SortedCommits, SortedByRev, ChangesOf, SortChanges, Labels, LongestFit, Cell, Join;
    commits, changes := [], [];
    assert entries[..0] == [];
    for i := 0 to |entries|
      invariant multiset(changes) == multiset(AllChanges(entries[..i]))
      invariant |commits| == i && forall k :: 0 <= k < i ==> CommitRight(entries[k], commits[k], maxCell)
      invariant FilesTotal(commits) == |changes|
    {
      var e := entries[i];
      var rows := SortChanges(ChangesOf(e, e.paths));
      assert |rows| == |e.paths| by { assert |multiset(rows)| == |multiset(ChangesOf(e, e.paths))|; }
      var cell := JoinList(Labels(rows), maxCell);
      FilesTotalMore(commits, CommitRow(e.rev, |rows|, cell));
      commits := commits + [CommitRow(e.rev, |rows|, cell)];
      changes := changes + rows;
      AllChangesMore(entries, i);
    }
    assert entries[..|entries|] == entries;
    ghost var unsorted := commits;
    FilesTotalSort(commits);
    SortCommitsSorted(commits);
    commits := SortCommits(commits);
    ghost var n := |changes|;
    SortByRevSorted(changes);
    changes := SortByRev(changes);
    assert |changes| == n by { assert |multiset(changes)| == n; }
    assert multiset(commits) == multiset(unsorted);
  }

  /** Entry `e` lists `path`. */
  predicate Lists(e: Entry, path: string) { exists i :: 0 <= i < |e.paths| && e.paths[i].path == path }

  lemma {:induction false} ChangesOfExact(e: Entry, nodes: seq<PathNode>, path: string, rev: nat)
    ensures (exists c :: c in ChangesOf(e, nodes) && c.path == path && c.rev == rev)
       <==> rev == e.rev && exists i :: 0 <= i < |nodes| && nodes[i].path == path
    decreases |nodes|
  {
    if nodes != [] {
      var rest := nodes[1..];
      ChangesOfExact(e, rest, path, rev);
      var first := Change(e.rev, e.date, e.author, nodes[0].action, nodes[0].path);
      var all := ChangesOf(e, nodes);
      assert forall c :: c in all <==> c == first || c in ChangesOf(e, rest);
      if rev == e.rev {
        if i :| 0 <= i < |nodes| && nodes[i].path == path {
          if i == 0 {
            assert first in all;
          } else {
            assert rest[i - 1].path == path;
            var c :| c in ChangesOf(e, rest) && c.path == path && c.rev == rev;
            assert c in all;
          }
        }
      }
      if c :| c in all && c.path == path && c.rev == rev {
        if c == first {
          assert nodes[0].path == path;
        } else {
          assert c in ChangesOf(e, rest);
          var i :| 0 <= i < |rest| && rest[i].path == path;
          assert nodes[i + 1].path == path;
        }
      }
    }
  }

  lemma {:induction false} AllChangesExact(entries: seq<Entry>, path: string, rev: nat)
    ensures (exists c :: c in AllChanges(entries) && c.path == path && c.rev == rev)
       <==> (exists e :: e in entries && e.rev == rev && Lists(e, path))
  {
    hide ChangesOf;
    if entries != [] {
      var e0, rest := entries[0], entries[1..];
      AllChangesExact(rest, path, rev);
      ChangesOfExact(e0, e0.paths, path, rev);
      var here := ChangesOf(e0, e0.paths);
      assert forall c :: c in AllChanges(entries) <==> c in here || c in AllChanges(rest);
      assert forall e :: e in entries <==> e == e0 || e in rest;
    }
  }

  /** Both tables from one log: they count the same files, and the file table inverts the commit table. */
  method BuildTables(entries: seq<Entry>, maxCell: int) returns (commits: seq<CommitRow>, rows: seq<Row>)
    ensures ActionTotal(rows) == FilesTotal(commits)
    ensures SortedCommits(commits) && SortedRows(rows)
    ensures forall i, j :: 0 <= i < j < |rows| ==> rows[i].path != rows[j].path
    ensures forall i, rev :: 0 <= i < |rows| ==>
              (rev in rows[i].revs <==> exists e :: e in entries && e.rev == rev && Lists(e, rows[i].path))
    ensures forall e, path :: e in entries && Lists(e, path) ==> exists i :: 0 <= i < |rows| && rows[i].path == path
  {
    hide AllChanges, Lists, SortedRows, SortedCommits, SortedByRev, CountOf;
    var changes: seq<Change>;
    commits, changes := ParseLog(entries, maxCell);
    rows := BuildFiles(changes);
    forall c ensures c in changes <==> c in AllChanges(entries) {
      assert c in changes <==> c in multiset(changes);
      assert c in AllChanges(entries) <==> c in multiset(AllChanges(entries));
    }
    forall i, rev | 0 <= i < |rows|
      ensures rev in rows[i].revs <==> exists e :: e in entries && e.rev == rev && Lists(e, rows[i].path)
    {
      assert RowRight(changes, rows[i]);
      AllChangesExact(entries, rows[i].path, rev);
    }
    forall e, path | e in entries && Lists(e, path) ensures exists i :: 0 <= i < |rows| && rows[i].path == path {
      AllChangesExact(entries, path, e.rev);
      var c :| c in AllChanges(entries) && c.path == path && c.rev == e.rev;
      assert c in changes;
    }
  }

  // ---- what the tables are made of, field by field

  /** Position `k` is where the strings first differ, and there `a` is smaller. */
  predicate SmallerAt(a: string, b: string, k: nat) {
    k < |a| && k < |b| && a[..k] == b[..k] && a[k] < b[k]
  }

  lemma SmallerShift(a: string, b: string, k: nat)
    requires a != "" && b != "" && a[0] == b[0]
    ensures SmallerAt(a, b, k + 1) <==> SmallerAt(a[1..], b[1..], k)
    ensures !SmallerAt(a, b, 0)
  {
    if k < |a[1..]| && k < |b[1..]| {
      assert a[..k + 1] == [a[0]] + a[1..][..k] && b[..k + 1] == [b[0]] + b[1..][..k];
      assert a[1..][..k] == a[..k + 1][1..] && b[1..][..k] == b[..k + 1][1..];
    }
  }

  /** Python's order on strings: a prefix comes first, otherwise the first difference decides. */
  lemma {:induction false} StrLeIff(a: string, b: string)
    ensures StrLe(a, b) <==> a <= b || exists k: nat :: SmallerAt(a, b, k)
  {
    hide SmallerAt;
    if a == "" || b == "" {
      NoneSmaller(a, b);
    } else if a[0] == b[0] {
      StrLeIff(a[1..], b[1..]);
      assert a == [a[0]] + a[1..] && b == [b[0]] + b[1..];
      assert a[1..] <= b[1..] <==> a <= b;
      SmallerShift(a, b, 0);
      if k: nat :| SmallerAt(a[1..], b[1..], k) {
        SmallerShift(a, b, k);
      }
      if k: nat :| SmallerAt(a, b, k) {
        SmallerShift(a, b, k - 1);
      }
    } else {
      FirstDecides(a, b);
    }
  }

  lemma NoneSmaller(a: string, b: string)
    requires a == "" || b == ""
    ensures forall k: nat :: !SmallerAt(a, b, k)
  {}

  lemma FirstDecides(a: string, b: string)
    requires a != "" && b != "" && a[0] != b[0]
    ensures (exists k: nat :: SmallerAt(a, b, k)) <==> a[0] < b[0]
  {
    assert a[..0] == b[..0];
    forall k: nat | k < |a| && k < |b| && k > 0 ensures a[..k] != b[..k] {
      DifferentStart(a, b, k);
    }
    if a[0] < b[0] {
      assert SmallerAt(a, b, 0);
    }
  }

  lemma DifferentStart(a: string, b: string, k: nat)
    requires 0 < k <= |a| && k <= |b| && a[0] != b[0]
    ensures a[..k] != b[..k]
  {
    assert a[..k][0] == a[0] && b[..k][0] == b[0];
  }

  /** Every change is one path of one entry, with that entry's revision, date and author. */
  lemma {:induction false} ChangesAre(e: Entry, nodes: seq<PathNode>, c: Change)
    ensures c in ChangesOf(e, nodes)
       <==> exists i :: 0 <= i < |nodes| && c == Change(e.rev, e.date, e.author, nodes[i].action, nodes[i].path)
  {
    if nodes != [] {
      var rest := nodes[1..];
      ChangesAre(e, rest, c);
      var first := Change(e.rev, e.date, e.author, nodes[0].action, nodes[0].path);
      assert c in ChangesOf(e, nodes) <==> c == first || c in ChangesOf(e, rest);
      assert forall i :: 0 <= i < |rest| ==> rest[i] == nodes[i + 1];
    }
  }

  lemma {:induction false} AllChangesAre(entries: seq<Entry>, c: Change)
    ensures c in AllChanges(entries) <==> exists e :: e in entries && IsChange(e, c)
  {
    hide ChangesOf, IsChange;
    if entries != [] {
      AllChangesAre(entries[1..], c);
      OneEntry(entries[0], c);
      assert forall e :: e in entries <==> e == entries[0] || e in entries[1..];
    }
  }

  predicate IsChange(e: Entry, c: Change) {
    && c.rev == e.rev && c.date == e.date && c.author == e.author
    && exists i :: 0 <= i < |e.paths| && e.paths[i].action == c.action && e.paths[i].path == c.path
  }

  lemma OneEntry(e: Entry, c: Change)
    ensures c in ChangesOf(e, e.paths) <==> IsChange(e, c)
  {
    ChangesAre(e, e.paths, c);
  }

  /** The file column names each change as `action:path`. */
  lemma {:induction false} LabelsAt(rows: seq<Change>, i: nat)
    requires i < |rows|
    ensures Labels(rows)[i] == rows[i].action + ":" + rows[i].path
  {
    if i > 0 {
      LabelsAt(rows[1..], i - 1);
    }
  }

  /** Most revisions first, then by path. */
  lemma SortedRowsMean(rows: seq<Row>, i: nat, j: nat)
    requires SortedRows(rows) && i < j < |rows|
    ensures |rows[i].revs| >= |rows[j].revs|
    ensures |rows[i].revs| == |rows[j].revs| ==> StrLe(rows[i].path, rows[j].path)
  {}
}
