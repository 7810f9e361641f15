/** The reload of packages/server/src/context.ts. */
module Reloading {
  // How the vault on disk is compared, file by file, with the notes that are
  // served, and how a written note finds its place among them.

  import opened Vault

  datatype Fingerprint = Fingerprint(frontmatter: Frontmatter, body: string)

  datatype ReloadStats = ReloadStats(added: int, changed: int, removed: int, notes: int)

  function FingerprintOf(n: Note): Fingerprint {
    Fingerprint(n.frontmatter, n.body)
  }

  ghost predicate UniquePaths(notes: seq<Note>) {
    forall i, j :: 0 <= i < j < |notes| ==> notes[i].relPath != notes[j].relPath
  }

  /** Every file with its fingerprint. */
  function Prints(notes: seq<Note>): map<string, Fingerprint> {
    if |notes| == 0 then map[]
    else Prints(notes[..|notes| - 1])[notes[|notes| - 1].relPath := FingerprintOf(notes[|notes| - 1])]
  }

  lemma {:induction false} PrintsKeys(notes: seq<Note>, p: string)
    ensures p in Prints(notes) <==> exists i :: 0 <= i < |notes| && notes[i].relPath == p
  {
    if |notes| > 0 {
      var init := notes[..|notes| - 1];
      PrintsKeys(init, p);
      if i :| 0 <= i < |init| && init[i].relPath == p { assert notes[i].relPath == p; }
    }
  }

  lemma {:induction false} PrintsCount(notes: seq<Note>)
    requires UniquePaths(notes)
    ensures |Prints(notes)| == |notes|
  {
    if |notes| > 0 {
      var init, n := notes[..|notes| - 1], notes[|notes| - 1];
      PrintsCount(init);
      PrintsKeys(init, n.relPath);
      assert Prints(notes).Keys == Prints(init).Keys + {n.relPath};
      assert |Prints(init)| == |Prints(init).Keys| && |Prints(notes)| == |Prints(notes).Keys|;
    }
  }

  function AddedPaths(served: map<string, Fingerprint>, disk: map<string, Fingerprint>): set<string> {
    set p | p in disk && p !in served
  }

  function ChangedPaths(served: map<string, Fingerprint>, disk: map<string, Fingerprint>): set<string> {
    set p | p in disk && p in served && served[p] != disk[p]
  }

  /** The table of served fingerprints. */
  method TakePrints(notes: seq<Note>) returns (prints: map<string, Fingerprint>)
    ensures prints == Prints(notes)
  {
    prints := map[];
    for i := 0 to |notes|
      invariant prints == Prints(notes[..i])
    {
      assert notes[..i + 1][..i] == notes[..i];
      prints := prints[notes[i].relPath := FingerprintOf(notes[i])];
    }
    assert notes[..|notes|] == notes;
  }

  lemma OneMoreFile(before: map<string, Fingerprint>, disk: seq<Note>, i: nat)
    requires i < |disk| && UniquePaths(disk)
    ensures var p, was, now := disk[i].relPath, Prints(disk[..i]), Prints(disk[..i + 1]);
      && p !in AddedPaths(before, was) && p !in ChangedPaths(before, was)
      && AddedPaths(before, now) == (if p in before then AddedPaths(before, was) else AddedPaths(before, was) + {p})
      && ChangedPaths(before, now) ==
           if p in before && before[p] != FingerprintOf(disk[i]) then ChangedPaths(before, was) + {p} else ChangedPaths(before, was)
  {
    var p := disk[i].relPath;
    assert disk[..i + 1][..i] == disk[..i];
    PrintsKeys(disk[..i], p);
    assert Prints(disk[..i + 1]) == Prints(disk[..i])[p := FingerprintOf(disk[i])];
  }

  /** The statistics of a reload: exact, `removed` included although no loop counts it. */
  method Compare(served: seq<Note>, disk: seq<Note>) returns (stats: ReloadStats)
    requires UniquePaths(served) && UniquePaths(disk)
    ensures stats.added == |AddedPaths(Prints(served), Prints(disk))|
    ensures stats.changed == |ChangedPaths(Prints(served), Prints(disk))|
    ensures stats.removed == |AddedPaths(Prints(disk), Prints(served))|
    ensures stats.notes == |disk|
    ensures stats.added == |NewPaths(served, disk)| && stats.changed == |EditedPaths(served, disk)| && stats.removed == |NewPaths(disk, served)|
  {
    hide *;
    CountedPaths(served, disk);
    CountedPaths(disk, served);
    var before := TakePrints(served);
    var added, changed := 0, 0;
    NoFiles(before, disk);
    for i := 0 to |disk|
      invariant added == |AddedPaths(before, Prints(disk[..i]))|
      invariant changed == |ChangedPaths(before, Prints(disk[..i]))|
    {
      OneMoreFile(before, disk, i);
      var p := disk[i].relPath;
      if p !in before {
        added := added + 1;
      } else if before[p] != FingerprintOf(disk[i]) {
        changed := changed + 1;
      }
    }
    assert disk[..|disk|] == disk;
    var removed := |served| - (|disk| - added);
    RemovedArithmetic(served, disk);
    stats := ReloadStats(added, changed, removed, |disk|);
  }

  lemma NoFiles(before: map<string, Fingerprint>, disk: seq<Note>)
    ensures AddedPaths(before, Prints(disk[..0])) == {} && ChangedPaths(before, Prints(disk[..0])) == {}
  {}

  /** Files that stay are counted twice, once from each side. */
  lemma RemovedArithmetic(served: seq<Note>, disk: seq<Note>)
    requires UniquePaths(served) && UniquePaths(disk)
    ensures |served| - (|disk| - |AddedPaths(Prints(served), Prints(disk))|) == |AddedPaths(Prints(disk), Prints(served))|
  {
    hide Prints;
    hide UniquePaths;
    PrintsCount(served);
    PrintsCount(disk);
    var s, d := Prints(served).Keys, Prints(disk).Keys;
    assert AddedPaths(Prints(served), Prints(disk)) == d - s;
    assert AddedPaths(Prints(disk), Prints(served)) == s - d;
    assert s == (s - d) + (s * d) && d == (d - s) + (s * d);
    assert |s| == |Prints(served)| && |d| == |Prints(disk)|;
  }

  /** A reload finds nothing to do exactly when disk and served notes agree file by file. */
  lemma NothingToDo(served: seq<Note>, disk: seq<Note>)
    ensures |AddedPaths(Prints(served), Prints(disk))| == 0
         && |ChangedPaths(Prints(served), Prints(disk))| == 0
         && |AddedPaths(Prints(disk), Prints(served))| == 0
       <==> Prints(served) == Prints(disk)
  {
    hide Prints;
    var s, d := Prints(served), Prints(disk);
    if AddedPaths(s, d) == {} && ChangedPaths(s, d) == {} && AddedPaths(d, s) == {} {
      forall p ensures p in s <==> p in d {
        assert p !in AddedPaths(s, d) && p !in AddedPaths(d, s);
      }
      forall p | p in s ensures s[p] == d[p] {
        assert p !in ChangedPaths(s, d);
      }
      assert s == d;
    }
  }

  // ---- the same, on the notes themselves

  /** Whether two notes are the same file with the same content. */
  ghost predicate SameFile(m: Note, n: Note) {
    m.relPath == n.relPath && m.frontmatter == n.frontmatter && m.body == n.body
  }

  /** Whether each note of one list stands in the other as well. */
  ghost predicate AllIn(notes: seq<Note>, others: seq<Note>) {
    forall n :: n in notes ==> exists m :: m in others && SameFile(m, n)
  }

  ghost predicate SameFiles(notes: seq<Note>, others: seq<Note>) {
    AllIn(notes, others) && AllIn(others, notes)
  }

  /** The paths in one list and not in the other. */
  ghost function NewPaths(served: seq<Note>, disk: seq<Note>): set<string> {
    set n | n in disk && (forall m :: m in served ==> m.relPath != n.relPath) :: n.relPath
  }

  /** The paths whose frontmatter or body differs between the lists. */
  ghost function EditedPaths(served: seq<Note>, disk: seq<Note>): set<string> {
    set m, n | m in served && n in disk && m.relPath == n.relPath && (m.frontmatter != n.frontmatter || m.body != n.body) :: n.relPath
  }

  /** A print tells the frontmatter and the body of the one file at its path. */
  lemma {:induction false} PrintTells(notes: seq<Note>, n: Note)
    requires UniquePaths(notes) && n in notes
    ensures n.relPath in Prints(notes)
    ensures Prints(notes)[n.relPath] == Fingerprint(n.frontmatter, n.body)
  {
    var last := |notes| - 1;
    var i :| 0 <= i < |notes| && notes[i] == n;
    if i < last {
      assert notes[..last][i] == n;
      PrintTells(notes[..last], n);
    }
  }

  lemma PrintStands(notes: seq<Note>, p: string) returns (n: Note)
    requires p in Prints(notes)
    ensures n in notes && n.relPath == p
  {
    PrintsKeys(notes, p);
    var i :| 0 <= i < |notes| && notes[i].relPath == p;
    n := notes[i];
  }

  /** The counts of a reload are of paths that came, went, or hold another content. */
  lemma CountedPaths(served: seq<Note>, disk: seq<Note>)
    requires UniquePaths(served) && UniquePaths(disk)
    ensures AddedPaths(Prints(served), Prints(disk)) == NewPaths(served, disk)
    ensures ChangedPaths(Prints(served), Prints(disk)) == EditedPaths(served, disk)
  {
    hide Prints;
    hide UniquePaths;
    var s, d := Prints(served), Prints(disk);
    forall p ensures p in AddedPaths(s, d) <==> p in NewPaths(served, disk) {
      AddedPath(served, disk, p);
    }
    forall p ensures p in ChangedPaths(s, d) <==> p in EditedPaths(served, disk) {
      ChangedPath(served, disk, p);
    }
  }

  lemma AddedPath(served: seq<Note>, disk: seq<Note>, p: string)
    requires UniquePaths(served) && UniquePaths(disk)
    ensures p in AddedPaths(Prints(served), Prints(disk)) <==> p in NewPaths(served, disk)
  {
    hide Prints;
    hide UniquePaths;
    if p in Prints(disk) {
      var n := PrintStands(disk, p);
      if p in Prints(served) { var m := PrintStands(served, p); }
    }
    if n :| n in disk && n.relPath == p { PrintTells(disk, n); }
    if m :| m in served && m.relPath == p { PrintTells(served, m); }
  }

  lemma ChangedPath(served: seq<Note>, disk: seq<Note>, p: string)
    requires UniquePaths(served) && UniquePaths(disk)
    ensures p in ChangedPaths(Prints(served), Prints(disk)) <==> p in EditedPaths(served, disk)
  {
    hide Prints;
    hide UniquePaths;
    if p in Prints(disk) && p in Prints(served) {
      var m := PrintStands(served, p);
      var n := PrintStands(disk, p);
      PrintTells(served, m);
      PrintTells(disk, n);
    }
    if p in EditedPaths(served, disk) {
      var m, n :| m in served && n in disk && m.relPath == n.relPath == p && (m.frontmatter != n.frontmatter || m.body != n.body);
      PrintTells(served, m);
      PrintTells(disk, n);
    }
  }

  /** The tables of prints agree exactly when both lists hold the same files with the same content. */
  lemma PrintsAgree(served: seq<Note>, disk: seq<Note>)
    requires UniquePaths(served) && UniquePaths(disk)
    ensures Prints(served) == Prints(disk) <==> SameFiles(served, disk)
  {
    hide Prints;
    hide UniquePaths;
    hide SameFile;
    if Prints(served) == Prints(disk) {
      SamePrints(served, disk);
      SamePrints(disk, served);
    }
    if SameFiles(served, disk) {
      forall p ensures p in Prints(served) ==> p in Prints(disk) && Prints(served)[p] == Prints(disk)[p] {
        if p in Prints(served) { PrintKept(served, disk, p); }
      }
      forall p ensures p in Prints(disk) ==> p in Prints(served) && Prints(served)[p] == Prints(disk)[p] {
        if p in Prints(disk) { PrintKept(disk, served, p); }
      }
      assert Prints(served) == Prints(disk);
    }
  }

  lemma SamePrints(served: seq<Note>, disk: seq<Note>)
    requires UniquePaths(served) && UniquePaths(disk) && Prints(served) == Prints(disk)
    ensures AllIn(served, disk)
  {
    hide Prints;
    hide UniquePaths;
    forall n | n in served ensures exists m :: m in disk && SameFile(m, n) {
      PrintTells(served, n);
      var m := PrintStands(disk, n.relPath);
      PrintTells(disk, m);
    }
  }

  lemma PrintKept(served: seq<Note>, disk: seq<Note>, p: string)
    requires UniquePaths(served) && UniquePaths(disk) && AllIn(served, disk) && p in Prints(served)
    ensures p in Prints(disk) && Prints(served)[p] == Prints(disk)[p]
  {
    hide Prints;
    hide UniquePaths;
    var n := PrintStands(served, p);
    PrintTells(served, n);
    var m :| m in disk && SameFile(m, n);
    PrintTells(disk, m);
  }

  lemma SameAsItself(notes: seq<Note>)
    ensures SameFiles(notes, notes)
  {
    forall n | n in notes ensures exists m :: m in notes && SameFile(m, n) { assert SameFile(n, n); }
  }

  /** What a reload says and does, on the notes: nothing exactly when disk and served notes already agree. */
  lemma NothingToReload(served: seq<Note>, disk: seq<Note>)
    requires UniquePaths(served) && UniquePaths(disk)
    ensures |NewPaths(served, disk)| == |EditedPaths(served, disk)| == |NewPaths(disk, served)| == 0 <==> SameFiles(served, disk)
  {
    hide *;
    NothingToDo(served, disk);
    PrintsAgree(served, disk);
    CountedPaths(served, disk);
    CountedPaths(disk, served);
  }

  // ---- where a written note goes

  /** The index of the file, or the end of the list. */
  function FileAt(notes: seq<Note>, path: string): (i: nat)
    ensures i <= |notes|
    ensures i < |notes| ==> notes[i].relPath == path
    ensures forall j :: 0 <= j < i ==> notes[j].relPath != path
  {
    if |notes| == 0 then 0
    else if notes[0].relPath == path then 0
    else FileAt(notes[1..], path) + 1
  }

  /** The notes after a write: replaced in place, or pushed at the end. */
  function Written(notes: seq<Note>, note: Note): seq<Note> {
    var at := FileAt(notes, note.relPath);
    if at < |notes| then notes[at := note] else notes + [note]
  }

  /** The written note is served, it alone answers for its file, and every other file is as it was. */
  lemma WrittenHolds(notes: seq<Note>, note: Note)
    requires UniquePaths(notes)
    ensures note in Written(notes, note)
    ensures forall n :: n in Written(notes, note) && n.relPath == note.relPath ==> n == note
    ensures forall n: Note :: n.relPath != note.relPath ==> (n in Written(notes, note) <==> n in notes)
    ensures |notes| <= |Written(notes, note)| <= |notes| + 1
    ensures forall i :: 0 <= i < |notes| ==> Written(notes, note)[i] == if notes[i].relPath == note.relPath then note else notes[i]
  {
    var at := FileAt(notes, note.relPath);
    if at < |notes| {
      var after := notes[at := note];
      assert after[at] == note && notes[at] in notes;
      forall n: Note | n.relPath != note.relPath ensures n in after <==> n in notes {
        if i :| 0 <= i < |notes| && notes[i] == n { assert after[i] == n; }
        if i :| 0 <= i < |after| && after[i] == n { assert notes[i] == n; }
      }
    }
  }

  lemma WrittenKeepsPaths(notes: seq<Note>, note: Note)
    requires UniquePaths(notes)
    ensures UniquePaths(Written(notes, note))
  {}

  method FindFile(notes: seq<Note>, path: string) returns (at: nat)
    ensures at == FileAt(notes, path)
  {
    at := 0;
    while at < |notes| && notes[at].relPath != path
      invariant at <= |notes|
      invariant forall j :: 0 <= j < at ==> notes[j].relPath != path
    {
      at := at + 1;
    }
  }
}
