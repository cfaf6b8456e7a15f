/**
  backup.py: the backup directory's listing, the keep-newest-N cleanup, the
  snapshot of the database files and the restore with its `.pre-restore`
  copies.  The file system is a value held by a class: the live files as a
  map from path to content, and the backup directory as the sequence of its
  entries in listing order.  File contents are opaque.
*/
module Backup {
  import opened Wrappers
  import opened PyText

  // ---------------------------------------------------------------------------
  // Backup names: backup_%Y%m%d_%H%M%S
  // ---------------------------------------------------------------------------

  const BackupPrefix: string := "backup_"

  /** The wall-clock fields strftime reads. */
  datatype Timestamp = Timestamp(year: nat, month: nat, day: nat, hour: nat, minute: nat, second: nat)

  /** A datetime with a four-digit year. */
  predicate ValidStamp(t: Timestamp) {
    1000 <= t.year <= 9999 && 1 <= t.month <= 12 && 1 <= t.day <= 31
    && t.hour < 24 && t.minute < 60 && t.second < 60
  }

  /** The fields strftime prints, in the order it prints them. */
  function Fields(t: Timestamp): seq<nat> {
    [t.year, t.month, t.day, t.hour, t.minute, t.second]
  }

  /** `t1` comes before `t2`: the fields compared from the year down to the second. */
  predicate Earlier(t1: Timestamp, t2: Timestamp) {
    LexLt(Fields(t1), Fields(t2))
  }

  predicate LexLt(a: seq<nat>, b: seq<nat>)
    requires |a| == |b|
  {
    |a| > 0 && (a[0] < b[0] || (a[0] == b[0] && LexLt(a[1..], b[1..])))
  }

  function Pow10(w: nat): nat {
    if w == 0 then 1 else 10 * Pow10(w - 1)
  }

  /** The last `w` decimal digits of `n`, zero-padded: strftime's `%Y` (w = 4) and `%m`, `%d`, ... (w = 2). */
  function Digits(n: nat, w: nat): (r: string)
    ensures |r| == w
  {
    if w == 0 then "" else Digits(n / 10, w - 1) + [DigitChar(n % 10)]
  }

  /** The printed field is all digits, and a number that fits in the width reads back as itself. */
  lemma {:induction false} DigitsReadBack(n: nat, w: nat)
    ensures forall i | 0 <= i < w :: IsDigit(Digits(n, w)[i])
    ensures n < Pow10(w) ==> DigitsValue(Digits(n, w)) == n
  {
    if w > 0 {
      var s := Digits(n, w);
      var head := Digits(n / 10, w - 1);
      DigitsReadBack(n / 10, w - 1);
      assert s[..w - 1] == head;
      assert s[w - 1] == DigitChar(n % 10);
      assert DigitsValue(s) == DigitsValue(head) * 10 + n % 10;
    }
  }

  /** Each field printed at its width after its fixed text. */
  function FieldPieces(cs: seq<string>, ws: seq<nat>, fs: seq<nat>): (r: seq<string>)
    requires |cs| == |ws| == |fs|
    ensures |r| == |fs|
  {
    seq(|fs|, i requires 0 <= i < |fs| => cs[i] + Digits(fs[i], ws[i]))
  }

  /** The fixed text before each field: `backup_%Y`, `%m`, `%d`, `_%H`, `%M`, `%S`. */
  const NameTexts: seq<string> := [BackupPrefix, "", "", "_", "", ""]
  const NameWidths: seq<nat> := [4, 2, 2, 2, 2, 2]

  function Concat(ps: seq<string>): string {
    if |ps| == 0 then "" else ps[0] + Concat(ps[1..])
  }

  /** The directory name create_backup makes. */
  function BackupName(t: Timestamp): (r: string)
    ensures StartsWith(r, BackupPrefix)
  {
    assert FieldPieces(NameTexts, NameWidths, Fields(t))[0] == BackupPrefix + Digits(t.year, 4);
    Concat(FieldPieces(NameTexts, NameWidths, Fields(t)))
  }

  /** Comparing strings of the same length then the rest: lexicographic order splits at the piece boundary. */
  lemma {:induction false} StrLtAppend(a: string, x: string, b: string, y: string)
    requires |a| == |b|
    ensures StrLt(a + x, b + y) <==> StrLt(a, b) || (a == b && StrLt(x, y))
    ensures a + x == b + y <==> a == b && x == y
    decreases |a|
  {
    if |a| > 0 {
      assert (a + x)[1..] == a[1..] + x && (b + y)[1..] == b[1..] + y;
      StrLtAppend(a[1..], x, b[1..], y);
      if a[0] == b[0] && a[1..] == b[1..] {
        assert a == [a[0]] + a[1..] && b == [b[0]] + b[1..];
      }
      if a + x == b + y {
        assert a[0] == (a + x)[0];
        assert a[1..] + x == (a + x)[1..];
      }
    } else {
      assert a + x == x && b + y == y;
    }
  }

  /** Quotient and remainder by ten order numbers lexicographically. */
  lemma DivModTen(n: nat, m: nat)
    ensures n < m <==> n / 10 < m / 10 || (n / 10 == m / 10 && n % 10 < m % 10)
    ensures n == m <==> n / 10 == m / 10 && n % 10 == m % 10
  {
    assert n == n / 10 * 10 + n % 10;
    assert m == m / 10 * 10 + m % 10;
  }

  /** Fixed-width digit strings of numbers in range compare as the numbers do. */
  lemma {:induction false} DigitsOrder(n: nat, m: nat, w: nat)
    requires n < Pow10(w) && m < Pow10(w)
    ensures StrLt(Digits(n, w), Digits(m, w)) <==> n < m
    ensures Digits(n, w) == Digits(m, w) <==> n == m
  {
    if w > 0 {
      assert n / 10 < Pow10(w - 1) && m / 10 < Pow10(w - 1);
      DigitsOrder(n / 10, m / 10, w - 1);
      DivModTen(n, m);
      var x, y := [DigitChar(n % 10)], [DigitChar(m % 10)];
      StrLtAppend(Digits(n / 10, w - 1), x, Digits(m / 10, w - 1), y);
      assert StrLt(x, y) <==> n % 10 < m % 10 by {
        assert x[1..] == [] && y[1..] == [];
      }
    }
  }

  /** Piece-wise lexicographic order on sequences of equally long pieces. */
  predicate PiecesLt(ps: seq<string>, qs: seq<string>)
    requires |ps| == |qs|
  {
    |ps| > 0 && (StrLt(ps[0], qs[0]) || (ps[0] == qs[0] && PiecesLt(ps[1..], qs[1..])))
  }

  /** Joining pieces of matching lengths: the text order is the piece-wise order. */
  lemma {:induction false} ConcatOrder(ps: seq<string>, qs: seq<string>)
    requires |ps| == |qs| && forall i | 0 <= i < |ps| :: |ps[i]| == |qs[i]|
    ensures StrLt(Concat(ps), Concat(qs)) <==> PiecesLt(ps, qs)
    ensures Concat(ps) == Concat(qs) <==> ps == qs
  {
    if |ps| > 0 {
      ConcatOrder(ps[1..], qs[1..]);
      StrLtAppend(ps[0], Concat(ps[1..]), qs[0], Concat(qs[1..]));
      if ps[0] == qs[0] && ps[1..] == qs[1..] {
        assert ps == [ps[0]] + ps[1..] && qs == [qs[0]] + qs[1..];
      }
    } else {
      StrLtIrreflexive("");
    }
  }

  /** Fields printed at fixed widths after fixed texts compare as the field sequences do. */
  lemma {:induction false} FieldPiecesOrder(cs: seq<string>, ws: seq<nat>, fs: seq<nat>, gs: seq<nat>)
    requires |cs| == |ws| == |fs| == |gs|
    requires forall i | 0 <= i < |fs| :: fs[i] < Pow10(ws[i]) && gs[i] < Pow10(ws[i])
    ensures PiecesLt(FieldPieces(cs, ws, fs), FieldPieces(cs, ws, gs)) <==> LexLt(fs, gs)
    ensures FieldPieces(cs, ws, fs) == FieldPieces(cs, ws, gs) <==> fs == gs
  {
    if |fs| > 0 {
      var ps, qs := FieldPieces(cs, ws, fs), FieldPieces(cs, ws, gs);
      var d, e := Digits(fs[0], ws[0]), Digits(gs[0], ws[0]);
      assert ps[0] == cs[0] + d && qs[0] == cs[0] + e;
      assert ps[1..] == FieldPieces(cs[1..], ws[1..], fs[1..]);
      assert qs[1..] == FieldPieces(cs[1..], ws[1..], gs[1..]);
      assert (StrLt(ps[0], qs[0]) <==> fs[0] < gs[0]) && (ps[0] == qs[0] <==> fs[0] == gs[0]) by {
        DigitsOrder(fs[0], gs[0], ws[0]);
        StrLtAppend(cs[0], d, cs[0], e);
        StrLtIrreflexive(cs[0]);
      }
      assert (PiecesLt(ps[1..], qs[1..]) <==> LexLt(fs[1..], gs[1..])) && (ps[1..] == qs[1..] <==> fs[1..] == gs[1..]) by {
        FieldPiecesOrder(cs[1..], ws[1..], fs[1..], gs[1..]);
      }
      assert ps == qs <==> ps[0] == qs[0] && ps[1..] == qs[1..] by {
        if ps[0] == qs[0] && ps[1..] == qs[1..] {
          assert ps == [ps[0]] + ps[1..] && qs == [qs[0]] + qs[1..];
        }
      }
      assert fs == gs <==> fs[0] == gs[0] && fs[1..] == gs[1..] by {
        if fs[0] == gs[0] && fs[1..] == gs[1..] {
          assert fs == [fs[0]] + fs[1..] && gs == [gs[0]] + gs[1..];
        }
      }
    }
  }

  /** Names of valid timestamps order as the timestamps do, so descending name order is newest first. */
  lemma NameOrder(t1: Timestamp, t2: Timestamp)
    requires ValidStamp(t1) && ValidStamp(t2)
    ensures StrLt(BackupName(t1), BackupName(t2)) <==> Earlier(t1, t2)
    ensures BackupName(t1) == BackupName(t2) <==> t1 == t2
  {
    var f1, f2 := Fields(t1), Fields(t2);
    var ps, qs := FieldPieces(NameTexts, NameWidths, f1), FieldPieces(NameTexts, NameWidths, f2);
    assert Pow10(2) == 100 && Pow10(4) == 10000;
    FieldPiecesOrder(NameTexts, NameWidths, f1, f2);
    ConcatOrder(ps, qs);
    if f1 == f2 {
      assert t1.year == f1[0] == f2[0] == t2.year;
      assert f1[1] == f2[1] && f1[2] == f2[2] && f1[3] == f2[3] && f1[4] == f2[4] && f1[5] == f2[5];
    }
  }

  // ---------------------------------------------------------------------------
  // list_backups: the "backup_" directories, sorted(reverse=True)
  // ---------------------------------------------------------------------------

  /** Every later element is at most every earlier one. */
  predicate SortedDesc(s: seq<string>) {
    forall i, j | 0 <= i < j < |s| :: StrLe(s[j], s[i])
  }

  lemma StrLeTransitive(a: string, b: string, c: string)
    requires StrLe(a, b) && StrLe(b, c)
    ensures StrLe(a, c)
  {
    if a != b && b != c {
      StrLtTransitive(a, b, c);
    }
  }

  /** One insertion step of the sort: x goes before the first element not above it. */
  function InsertDesc(x: string, s: seq<string>): (r: seq<string>)
    requires SortedDesc(s)
    ensures multiset(r) == multiset(s) + multiset{x}
    ensures SortedDesc(r)
  {
    if |s| == 0 then [x]
    else if StrLe(s[0], x) then
      AboveAll(x, s);
      [x] + s
    else
      assert SortedDesc(s[1..]);
      var rest := InsertDesc(x, s[1..]);
      assert s == [s[0]] + s[1..];
      StrLtTotal(x, s[0]);
      RestBelowHead(x, s, rest);
      [s[0]] + rest
  }

  /** An element not below the head of a descending sequence is not below any element. */
  lemma AboveAll(x: string, s: seq<string>)
    requires SortedDesc(s) && |s| > 0 && StrLe(s[0], x)
    ensures forall j | 0 <= j < |s| :: StrLe(s[j], x)
  {
    forall j | 0 <= j < |s| ensures StrLe(s[j], x) {
      StrLeTransitive(s[j], s[0], x);
    }
  }

  /** Inserting an element below the head into the tail keeps everything below the head. */
  lemma RestBelowHead(x: string, s: seq<string>, rest: seq<string>)
    requires SortedDesc(s) && |s| > 0 && StrLe(x, s[0])
    requires multiset(rest) == multiset(s[1..]) + multiset{x}
    ensures forall j | 0 <= j < |rest| :: StrLe(rest[j], s[0])
  {
    forall j | 0 <= j < |rest| ensures StrLe(rest[j], s[0]) {
      assert rest[j] in multiset(rest);
      if rest[j] != x {
        assert rest[j] in multiset(s[1..]);
        var k :| 0 <= k < |s[1..]| && s[1..][k] == rest[j];
        assert s[k + 1] == rest[j];
      }
    }
  }

  /** sorted(names, reverse=True): a descending permutation. */
  function SortDesc(s: seq<string>): (r: seq<string>)
    ensures multiset(r) == multiset(s)
    ensures SortedDesc(r)
  {
    if |s| == 0 then []
    else
      assert s == [s[0]] + s[1..];
      InsertDesc(s[0], SortDesc(s[1..]))
  }

  /** File contents are not interpreted. */
  type Content = seq<int>

  /** backup_info.json as create_backup writes it. */
  datatype BackupInfo = BackupInfo(timestamp: string, files: seq<string>)

  /** An entry of the backup directory: its name, whether it is a directory, and for a backup its files. */
  datatype Entry = Entry(name: string, isDir: bool, files: map<string, Content>, info: Option<BackupInfo>)

  predicate IsBackupDir(e: Entry) {
    e.isDir && StartsWith(e.name, BackupPrefix)
  }

  /** `[d.name for d in BACKUP_DIR.iterdir() if d.is_dir() and d.name.startswith("backup_")]` */
  function BackupNames(es: seq<Entry>): seq<string> {
    if |es| == 0 then []
    else (if IsBackupDir(es[0]) then [es[0].name] else []) + BackupNames(es[1..])
  }

  /** The names kept are exactly those of the backup directories. */
  lemma {:induction false} BackupNamesKeeps(es: seq<Entry>)
    ensures forall n :: n in BackupNames(es) <==> exists e | e in es :: IsBackupDir(e) && e.name == n
  {
    if |es| > 0 {
      BackupNamesKeeps(es[1..]);
      assert es == [es[0]] + es[1..];
      forall n ensures n in BackupNames(es) <==> exists e | e in es :: IsBackupDir(e) && e.name == n {
        if exists e | e in es :: IsBackupDir(e) && e.name == n {
          var e :| e in es && IsBackupDir(e) && e.name == n;
          if e != es[0] {
            assert e in es[1..];
          }
        }
      }
    }
  }

  /** list_backups: the backup directories newest name first, or [] when the directory cannot be listed. */
  function ListBackups(listing: Option<seq<Entry>>): (r: seq<string>)
    ensures listing.None? ==> r == []
    ensures listing.Some? ==> multiset(r) == multiset(BackupNames(listing.value))
    ensures SortedDesc(r)
    ensures forall i | 0 <= i < |r| :: StartsWith(r[i], BackupPrefix)
  {
    match listing
    case None => []
    case Some(es) =>
      var names := BackupNames(es);
      var r := SortDesc(names);
      assert forall i | 0 <= i < |names| :: StartsWith(names[i], BackupPrefix) by {
        BackupNamesKeeps(es);
        forall i | 0 <= i < |names| ensures StartsWith(names[i], BackupPrefix) {
          assert names[i] in names;
          var e :| e in es && IsBackupDir(e) && e.name == names[i];
        }
      }
      assert forall i | 0 <= i < |r| :: r[i] in names by {
        forall i | 0 <= i < |r| ensures r[i] in names {
          assert r[i] in multiset(r);
        }
      }
      r
  }

  // ---------------------------------------------------------------------------
  // cleanup_old_backups
  // ---------------------------------------------------------------------------

  /** `backups[keep_last:]` when there are more than keep_last, else nothing. */
  function ToDelete(listed: seq<string>, keepLast: int): (r: seq<string>)
    ensures |listed| <= keepLast ==> r == []
    ensures 0 <= keepLast < |listed| ==> r == listed[keepLast..]
  {
    if |listed| <= keepLast then [] else SliceFrom(listed, keepLast)
  }

  /** The names rmtree removed: in order, up to the first failure, which ends the loop. */
  function DeletedBy(names: seq<string>, rmOk: string -> bool): (r: seq<string>)
    ensures r <= names
    ensures |r| < |names| ==> !rmOk(names[|r|])
    ensures forall i | 0 <= i < |r| :: rmOk(r[i])
  {
    if |names| == 0 || !rmOk(names[0]) then []
    else [names[0]] + DeletedBy(names[1..], rmOk)
  }

  /** The removals stop at the first failure: the deleted names are the prefix before it. */
  lemma {:induction false} DeletedUpTo(names: seq<string>, rmOk: string -> bool, i: nat)
    requires i <= |names| && forall k | 0 <= k < i :: rmOk(names[k])
    requires i < |names| ==> !rmOk(names[i])
    ensures DeletedBy(names, rmOk) == names[..i]
  {
    if i > 0 {
      DeletedUpTo(names[1..], rmOk, i - 1);
      assert names[..i] == [names[0]] + names[1..][..i - 1];
    }
  }

  /** With every removal succeeding, cleanup deletes exactly `backups[keep_last:]`. */
  lemma DeletedAll(listed: seq<string>, keepLast: int, rmOk: string -> bool)
    requires forall i | 0 <= i < |listed| :: rmOk(listed[i])
    ensures DeletedBy(ToDelete(listed, keepLast), rmOk) == ToDelete(listed, keepLast)
    ensures |listed| > keepLast ==> DeletedBy(ToDelete(listed, keepLast), rmOk) == SliceFrom(listed, keepLast)
  {
    var names := ToDelete(listed, keepLast);
    assert forall k | 0 <= k < |names| :: names[k] == listed[|listed| - |names| + k];
    DeletedUpTo(names, rmOk, |names|);
  }

  /** The entries of the directory whose names are not in `names`, in order. */
  function WithoutNames(es: seq<Entry>, names: seq<string>): seq<Entry> {
    if |es| == 0 then []
    else (if es[0].name in names then [] else [es[0]]) + WithoutNames(es[1..], names)
  }

  /** Removing the named directories keeps exactly the entries with other names. */
  lemma {:induction false} WithoutNamesKeeps(es: seq<Entry>, names: seq<string>)
    ensures var r := WithoutNames(es, names);
      && (forall i | 0 <= i < |r| :: r[i] in es && r[i].name !in names)
      && (forall j | 0 <= j < |es| :: es[j].name !in names ==> es[j] in r)
  {
    if |es| > 0 {
      WithoutNamesKeeps(es[1..], names);
      assert forall j | 1 <= j < |es| :: es[j] == es[1..][j - 1];
      var head := if es[0].name in names then [] else [es[0]];
      var rest := WithoutNames(es[1..], names);
      assert forall i | 0 <= i < |head + rest| :: (head + rest)[i] in head || (head + rest)[i] in rest;
    }
  }

  lemma {:induction false} WithoutNone(es: seq<Entry>)
    ensures WithoutNames(es, []) == es
  {
    if |es| > 0 {
      WithoutNone(es[1..]);
      assert es == [es[0]] + es[1..];
    }
  }

  lemma {:induction false} WithoutMore(es: seq<Entry>, names: seq<string>, t: string)
    ensures WithoutNames(WithoutNames(es, names), [t]) == WithoutNames(es, names + [t])
  {
    if |es| > 0 {
      WithoutMore(es[1..], names, t);
      var head := if es[0].name in names then [] else [es[0]];
      var rest := WithoutNames(es[1..], names);
      assert WithoutNames(es, names) == head + rest;
      if head == [] {
        assert WithoutNames(es, names) == rest;
      } else {
        assert (head + rest)[1..] == rest;
      }
    }
  }

  /** The kept backups are the newest: every deleted name sorts below every kept one. */
  lemma DeletedAreOlder(listed: seq<string>, keepLast: nat, i: nat, j: nat)
    requires SortedDesc(listed) && keepLast < |listed|
    requires i < keepLast && j < |ToDelete(listed, keepLast)|
    ensures StrLe(ToDelete(listed, keepLast)[j], listed[i])
  {
    assert ToDelete(listed, keepLast)[j] == listed[keepLast + j];
  }

  /** For names create_backup made, a deleted backup was taken no later than a kept one. */
  lemma DeletedTakenEarlier(listed: seq<string>, keepLast: nat, i: nat, j: nat, kept: Timestamp, gone: Timestamp)
    requires SortedDesc(listed) && keepLast < |listed|
    requires i < keepLast && j < |ToDelete(listed, keepLast)|
    requires ValidStamp(kept) && ValidStamp(gone)
    requires listed[i] == BackupName(kept) && ToDelete(listed, keepLast)[j] == BackupName(gone)
    ensures gone == kept || Earlier(gone, kept)
  {
    DeletedAreOlder(listed, keepLast, i, j);
    NameOrder(gone, kept);
  }

  // ---------------------------------------------------------------------------
  // create_backup: the files copied, in DATABASE_FILES order
  // ---------------------------------------------------------------------------

  const BackupDir: string := "/home/azra3l/overseerrbot_telegram/backups"
  const DataDir: string := "/home/azra3l/overseerrbot_telegram/data"
  const DatabaseFiles: seq<string> := [DataDir + "/requests.json", DataDir + "/watchlist.json"]
  const PreRestoreSuffix: string := ".pre-restore"

  /** os.path.basename: what follows the last '/'. */
  function Basename(path: string): (r: string)
    ensures '/' !in r
  {
    if |path| == 0 || path[|path| - 1] == '/' then ""
    else Basename(path[..|path| - 1]) + [path[|path| - 1]]
  }

  /** The basename of `dir/name` is `name`. */
  lemma {:induction false} BasenameAfter(dir: string, name: string)
    requires '/' !in name
    ensures Basename(dir + "/" + name) == name
  {
    var path := dir + "/" + name;
    if |name| > 0 {
      assert path[..|path| - 1] == dir + "/" + name[..|name| - 1];
      BasenameAfter(dir, name[..|name| - 1]);
      assert name == name[..|name| - 1] + [name[|name| - 1]];
    } else {
      assert path == dir + "/";
    }
  }

  /** The basenames of the paths that exist, in path order. */
  function ExistingNames(paths: seq<string>, live: map<string, Content>): seq<string> {
    if |paths| == 0 then []
    else
      var p := paths[|paths| - 1];
      ExistingNames(paths[..|paths| - 1], live) + (if p in live then [Basename(p)] else [])
  }

  /** The names listed are the basenames of exactly the paths that exist. */
  lemma {:induction false} ExistingNamesSpec(paths: seq<string>, live: map<string, Content>)
    ensures |ExistingNames(paths, live)| <= |paths|
    ensures forall n | n in ExistingNames(paths, live) :: exists p | p in paths :: p in live && n == Basename(p)
    ensures forall j | 0 <= j < |paths| :: paths[j] in live ==> Basename(paths[j]) in ExistingNames(paths, live)
  {
    if |paths| > 0 {
      var front := paths[..|paths| - 1];
      ExistingNamesSpec(front, live);
      assert forall j | 0 <= j < |paths| - 1 :: paths[j] == front[j];
      assert forall q | q in front :: q in paths;
    }
  }

  /** The files of the new backup directory: each existing path's content under its basename. */
  function Snapshot(paths: seq<string>, live: map<string, Content>): map<string, Content> {
    if |paths| == 0 then map[]
    else
      var init := Snapshot(paths[..|paths| - 1], live);
      var p := paths[|paths| - 1];
      if p in live then init[Basename(p) := live[p]] else init
  }

  /** The new backup holds a file for exactly the names listed. */
  lemma {:induction false} SnapshotKeys(paths: seq<string>, live: map<string, Content>)
    ensures forall n :: n in Snapshot(paths, live) <==> n in ExistingNames(paths, live)
  {
    if |paths| > 0 {
      SnapshotKeys(paths[..|paths| - 1], live);
    }
  }

  /** With distinct basenames a backed-up file holds the content of its path. */
  lemma {:induction false} SnapshotHolds(paths: seq<string>, live: map<string, Content>, j: nat)
    requires j < |paths| && paths[j] in live
    requires forall a, b | 0 <= a < b < |paths| :: Basename(paths[a]) != Basename(paths[b])
    ensures Basename(paths[j]) in Snapshot(paths, live)
    ensures Snapshot(paths, live)[Basename(paths[j])] == live[paths[j]]
  {
    var init := paths[..|paths| - 1];
    if j < |paths| - 1 {
      assert init[j] == paths[j];
      SnapshotHolds(init, live, j);
    }
  }

  // ---------------------------------------------------------------------------
  // restore_backup: a `.pre-restore` copy, then the backup's file
  // ---------------------------------------------------------------------------

  /** One DATABASE_FILES path restored: when the backup holds its file, the current content (if any) goes to `.pre-restore` first. */
  function RestoreStep(live: map<string, Content>, p: string, files: map<string, Content>): map<string, Content> {
    var fn := Basename(p);
    if fn in files then
      (if p in live then live[p + PreRestoreSuffix := live[p]] else live)[p := files[fn]]
    else live
  }

  /** The live files after the paths are restored in order. */
  function Restored(live: map<string, Content>, paths: seq<string>, files: map<string, Content>): map<string, Content> {
    if |paths| == 0 then live
    else RestoreStep(Restored(live, paths[..|paths| - 1], files), paths[|paths| - 1], files)
  }

  /** Distinct paths, none of which is another's `.pre-restore` copy. */
  predicate NoClash(paths: seq<string>) {
    (forall a, b | 0 <= a < b < |paths| :: paths[a] != paths[b])
    && forall a, b | 0 <= a < |paths| && 0 <= b < |paths| :: paths[a] != paths[b] + PreRestoreSuffix
  }

  /** A name that is neither a restored path nor its copy keeps its content. */
  lemma {:induction false} RestoredOthers(live: map<string, Content>, paths: seq<string>, files: map<string, Content>, k: string)
    requires forall i | 0 <= i < |paths| :: k != paths[i] && k != paths[i] + PreRestoreSuffix
    ensures k in Restored(live, paths, files) <==> k in live
    ensures k in live ==> Restored(live, paths, files)[k] == live[k]
  {
    if |paths| > 0 {
      var front := paths[..|paths| - 1];
      assert forall i | 0 <= i < |front| :: front[i] == paths[i];
      RestoredOthers(live, front, files, k);
    }
  }

  lemma SuffixCancel(a: string, b: string)
    requires a + PreRestoreSuffix == b + PreRestoreSuffix
    ensures a == b
  {
    assert a == (a + PreRestoreSuffix)[..|a|];
    assert b == (b + PreRestoreSuffix)[..|b|];
  }

  /**
    After the restore each path whose file the backup holds has the backup's
    content, and its earlier content, if any, is in its `.pre-restore` copy;
    a path the backup lacks is left as it was.
  */
  lemma {:induction false} RestoredPath(live: map<string, Content>, paths: seq<string>, files: map<string, Content>, j: nat)
    requires NoClash(paths) && j < |paths|
    ensures var r, p := Restored(live, paths, files), paths[j];
      && (Basename(p) in files ==> p in r && r[p] == files[Basename(p)])
      && (Basename(p) in files && p in live ==> p + PreRestoreSuffix in r && r[p + PreRestoreSuffix] == live[p])
      && (Basename(p) !in files ==> (p in r <==> p in live) && (p in live ==> r[p] == live[p]))
  {
    var n := |paths|;
    var front := paths[..n - 1];
    var p := paths[j];
    assert NoClash(front) by {
      assert forall i | 0 <= i < |front| :: front[i] == paths[i];
    }
    assert forall i | 0 <= i < |front| :: front[i] == paths[i];
    if j == n - 1 {
      RestoredOthers(live, front, files, p);
    } else {
      RestoredPath(live, front, files, j);
      var last := paths[n - 1];
      assert last != p && last != p + PreRestoreSuffix && p != last + PreRestoreSuffix;
      if last + PreRestoreSuffix == p + PreRestoreSuffix {
        SuffixCancel(last, p);
      }
    }
  }

  // ---------------------------------------------------------------------------
  // The file system
  // ---------------------------------------------------------------------------

  /** Path.exists on BACKUP_DIR / name: the first entry with that name. */
  function Find(es: seq<Entry>, name: string): (r: Option<Entry>)
    ensures r.Some? ==> r.value in es && r.value.name == name
    ensures r.None? <==> forall e | e in es :: e.name != name
  {
    if |es| == 0 then None
    else if es[0].name == name then Some(es[0])
    else
      assert forall e | e in es[1..] :: e in es;
      assert forall e | e in es && e != es[0] :: e in es[1..];
      Find(es[1..], name)
  }

  /** The files a backup path offers: a plain file under that name holds none. */
  function FilesOf(e: Entry): map<string, Content> {
    if e.isDir then e.files else map[]
  }

  /** The copy loop of create_backup: each existing file under its basename, and the names copied, in order. */
  method CopyExisting(paths: seq<string>, live: map<string, Content>) returns (files: map<string, Content>, listed: seq<string>)
    ensures files == Snapshot(paths, live) && listed == ExistingNames(paths, live)
  {
    files, listed := map[], [];
    var i := 0;
    while i < |paths|
      invariant 0 <= i <= |paths|
      invariant files == Snapshot(paths[..i], live)
      invariant listed == ExistingNames(paths[..i], live)
    {
      var p := paths[i];
      assert paths[..i + 1][..i] == paths[..i];
      if p in live {
        files := files[Basename(p) := live[p]];
        listed := listed + [Basename(p)];
      }
      i := i + 1;
    }
    assert paths[..i] == paths;
  }

  /** The live database files and the backup directory's entries. */
  class Disk {
    var live: map<string, Content>
    var backups: seq<Entry>

    constructor (live0: map<string, Content>, backups0: seq<Entry>)
      ensures live == live0 && backups == backups0
    {
      live := live0;
      backups := backups0;
    }

    /**
      create_backup: a new `backup_{timestamp}` directory with every existing
      database file copied under its basename and backup_info.json listing
      them; None when the name is already taken (mkdir refuses).
    */
    method CreateBackup(now: Timestamp, isoNow: string) returns (path: Option<string>)
      modifies this
      ensures live == old(live)
      ensures Find(old(backups), BackupName(now)).Some? ==> path.None? && backups == old(backups)
      ensures Find(old(backups), BackupName(now)).None? ==>
        && path == Some(BackupDir + "/" + BackupName(now))
        && backups == old(backups) + [Entry(BackupName(now), true, Snapshot(DatabaseFiles, live),
                                            Some(BackupInfo(isoNow, ExistingNames(DatabaseFiles, live))))]
    {
      var name := BackupName(now);
      if Find(backups, name).Some? {
        return None;
      }
      var files, listed := CopyExisting(DatabaseFiles, live);
      backups := backups + [Entry(name, true, files, Some(BackupInfo(isoNow, listed)))];
      path := Some(BackupDir + "/" + name);
    }

    /**
      restore_backup: False and nothing copied when the backup is missing or
      its backup_info.json cannot be read; otherwise every database file the
      backup holds is restored, the current one first copied to `.pre-restore`.
    */
    method RestoreBackup(name: string, infoOk: bool) returns (ok: bool)
      modifies this
      ensures backups == old(backups)
      ensures Find(old(backups), name).None? ==> !ok && live == old(live)
      ensures Find(old(backups), name).Some? ==>
        var e := Find(old(backups), name).value;
        if e.isDir && e.info.Some? && !infoOk then !ok && live == old(live)
        else ok && live == Restored(old(live), DatabaseFiles, FilesOf(e))
    {
      var found := Find(backups, name);
      if found.None? {
        return false;
      }
      var e := found.value;
      if e.isDir && e.info.Some? && !infoOk {
        return false;
      }
      var files := FilesOf(e);
      var i := 0;
      while i < |DatabaseFiles|
        invariant 0 <= i <= |DatabaseFiles|
        invariant backups == old(backups)
        invariant live == Restored(old(live), DatabaseFiles[..i], files)
      {
        var p := DatabaseFiles[i];
        assert DatabaseFiles[..i + 1][..i] == DatabaseFiles[..i];
        var fn := Basename(p);
        if fn in files {
          if p in live {
            live := live[p + PreRestoreSuffix := live[p]];
          }
          live := live[p := files[fn]];
        }
        i := i + 1;
      }
      assert DatabaseFiles[..i] == DatabaseFiles;
      ok := true;
    }

    /** The rmtree loop: the names removed in order until one removal fails. */
    method RemoveInOrder(names: seq<string>, rmOk: string -> bool) returns (deleted: seq<string>)
      modifies this
      ensures deleted == DeletedBy(names, rmOk)
      ensures backups == WithoutNames(old(backups), deleted)
      ensures live == old(live)
    {
      var remaining;
      deleted, remaining := RemoveEach(backups, names, rmOk);
      backups := remaining;
    }

    /**
      cleanup_old_backups: with the directory listed, every backup after the
      newest keep_last is removed in order until a removal fails; nothing is
      removed when there are at most keep_last.
    */
    method CleanupOldBackups(keepLast: int, listOk: bool, rmOk: string -> bool) returns (deleted: seq<string>)
      modifies this
      ensures deleted == DeletedBy(ToDelete(ListBackups(if listOk then Some(old(backups)) else None), keepLast), rmOk)
      ensures backups == WithoutNames(old(backups), deleted)
      ensures live == old(live)
    {
      var listed := ListBackups(if listOk then Some(backups) else None);
      deleted := RemoveInOrder(ToDelete(listed, keepLast), rmOk);
    }
  }

  /** The loop itself over a listing: each name removed in turn until a removal fails. */
  method RemoveEach(es: seq<Entry>, names: seq<string>, rmOk: string -> bool) returns (deleted: seq<string>, remaining: seq<Entry>)
    ensures deleted == DeletedBy(names, rmOk)
    ensures remaining == WithoutNames(es, deleted)
  {
    deleted := [];
    remaining := es;
    WithoutNone(es);
    var i := 0;
    while i < |names| && rmOk(names[i])
      invariant 0 <= i <= |names|
      invariant deleted == names[..i]
      invariant forall k | 0 <= k < i :: rmOk(names[k])
      invariant remaining == WithoutNames(es, deleted)
    {
      var n := names[i];
      assert WithoutNames(remaining, [n]) == WithoutNames(es, deleted + [n]) by {
        WithoutMore(es, deleted, n);
      }
      remaining := WithoutNames(remaining, [n]);
      assert deleted + [n] == names[..i + 1];
      deleted := deleted + [n];
      i := i + 1;
    }
    DeletedUpTo(names, rmOk, i);
  }

  /** The two database files have distinct basenames and neither is the other's `.pre-restore` copy. */
  lemma DatabaseFilesApart()
    ensures NoClash(DatabaseFiles)
    ensures Basename(DatabaseFiles[0]) == "requests.json" && Basename(DatabaseFiles[1]) == "watchlist.json"
  {
    assert DatabaseFiles[0] == DataDir + "/" + "requests.json";
    assert DatabaseFiles[1] == DataDir + "/" + "watchlist.json";
    BasenameAfter(DataDir, "requests.json");
    BasenameAfter(DataDir, "watchlist.json");
    assert |DatabaseFiles[0]| == |DataDir| + 14 && |DatabaseFiles[1]| == |DataDir| + 15;
    assert NoClash(DatabaseFiles) by {
      forall a, b | 0 <= a < 2 && 0 <= b < 2 ensures DatabaseFiles[a] != DatabaseFiles[b] + PreRestoreSuffix {
        assert |DatabaseFiles[a]| < |DatabaseFiles[b] + PreRestoreSuffix|;
      }
    }
  }

  /** A restore puts back both database files the backup holds, keeping each current one as `.pre-restore`. */
  lemma RestoreDatabaseFiles(live: map<string, Content>, files: map<string, Content>, j: nat)
    requires j < |DatabaseFiles|
    ensures var r, p := Restored(live, DatabaseFiles, files), DatabaseFiles[j];
      && (Basename(p) in files ==> p in r && r[p] == files[Basename(p)])
      && (Basename(p) in files && p in live ==> p + PreRestoreSuffix in r && r[p + PreRestoreSuffix] == live[p])
      && (Basename(p) !in files ==> (p in r <==> p in live) && (p in live ==> r[p] == live[p]))
  {
    DatabaseFilesApart();
    RestoredPath(live, DatabaseFiles, files, j);
  }

  /** The new backup holds each existing database file's content under its basename. */
  lemma SnapshotDatabaseFiles(live: map<string, Content>, j: nat)
    requires j < |DatabaseFiles| && DatabaseFiles[j] in live
    ensures Basename(DatabaseFiles[j]) in Snapshot(DatabaseFiles, live)
    ensures Snapshot(DatabaseFiles, live)[Basename(DatabaseFiles[j])] == live[DatabaseFiles[j]]
  {
    DatabaseFilesApart();
    SnapshotHolds(DatabaseFiles, live, j);
  }
}
