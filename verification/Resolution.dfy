/** Links of packages/core/src/links.ts in full. */
module Resolution {
  // What the code does to a path, and to which note it resolves a link, said of
  // the notes themselves and without an index.

  import opened Text
  import opened Vault
  import opened Links

  // ---- paths and names

  /** The last segment of a path and what stands before it. */
  lemma LastSegment(dir: string, base: string)
    requires '/' !in base
    ensures LastOf(Split(dir + "/" + base, '/')) == base && DirOf(dir + "/" + base) == dir
    ensures LastOf(Split(base, '/')) == base && DirOf(base) == ""
  {
    SplitConcat(dir, base, '/');
    SplitPlain(base, '/');
    JoinSplit(dir, '/');
    var parts := Split(dir, '/');
    assert (parts + [base])[..|parts + [base]| - 1] == parts;
    assert [base][..0] == [];
  }

  /** A note is called as it says, else as its file without the extension `.md`. */
  lemma NamedByItsFile(n: Note, dir: string, base: string)
    requires '/' !in base && (n.relPath == base || n.relPath == dir + "/" + base)
    ensures n.frontmatter.name != "" ==> NoteName(n) == n.frontmatter.name
    ensures n.frontmatter.name == "" ==> forall stem: string :: base == stem + ".md" ==> NoteName(n) == stem
    ensures n.frontmatter.name == "" && (forall stem: string :: base != stem + ".md") ==> NoteName(n) == base
  {
    hide Split;
    LastSegment(dir, base);
    if |base| >= 3 && base[|base| - 3..] == ".md" {
      assert base == base[..|base| - 3] + ".md";
    }
    forall stem: string | base == stem + ".md" ensures WithoutMd(base) == stem {
      assert base[|base| - 3..] == ".md" && base[..|base| - 3] == stem;
    }
  }

  /** One extension `.md` or `.markdown`, in any case, is dropped, and nothing else. */
  lemma ExtensionDropped(s: string)
    ensures forall stem: string, ext: string :: s == stem + ext && Lower(ext) in {".md", ".markdown"} ==> StripExtension(s) == stem
    ensures StripExtension(s) == s || exists ext: string :: s == StripExtension(s) + ext && Lower(ext) in {".md", ".markdown"}
  {
    hide Lower;
    forall stem: string, ext: string | s == stem + ext && Lower(ext) in {".md", ".markdown"} ensures StripExtension(s) == stem {
      Extension(s, stem, ext);
    }
    if EndsWithExtension(s, ".md") {
      assert s == s[..|s| - 3] + s[|s| - 3..];
    } else if EndsWithExtension(s, ".markdown") {
      assert s == s[..|s| - 9] + s[|s| - 9..];
    }
  }

  lemma Extension(s: string, stem: string, ext: string)
    requires s == stem + ext && Lower(ext) in {".md", ".markdown"}
    ensures StripExtension(s) == stem
  {
    hide Lower;
    assert |ext| == |Lower(ext)| && |".md"| == 3 && |".markdown"| == 9;
    assert s[|stem|..] == ext && s[..|stem|] == stem;
    if Lower(ext) == ".markdown" { NotBoth(s, ext); }
  }

  lemma NotBoth(s: string, ext: string)
    requires |s| >= 9 && s[|s| - 9..] == ext && Lower(ext) == ".markdown"
    ensures !EndsWithExtension(s, ".md")
  {
    var tail := s[|s| - 3..];
    assert ext[6] == tail[0];
    assert LowerChar(ext[6]) == Lower(ext)[6] == ".markdown"[6] == 'o';
    assert Lower(tail)[0] == LowerChar(tail[0]) && ".md"[0] == '.';
  }

  /** A path is normalised a segment at a time: one that names something is kept, `..` takes the last away, others are dropped. */
  lemma NormalBySegment(path: string, part: string)
    requires '/' !in part
    ensures Normal("") == ""
    ensures part in {"", "."} ==> Normal(path + "/" + part) == Normal(path) && Normal(part) == ""
    ensures part == ".." ==> Normal(path + "/" + part) == DirOf(Normal(path)) && Normal(part) == ""
    ensures part !in {"", ".", ".."} ==>
      Normal(path + "/" + part) == (if Normal(path) == "" then part else Normal(path) + "/" + part) && Normal(part) == part
  {
    hide *;
    SegmentEnters(path, part);
    NormalIs(path);
    var stack := EnterAll([], Split(path, '/'));
    EnterOrdinaryStack(path);
    EnterIs(stack, part);
    EnterIs([], part);
    JoinEmpty();
    NormalIs("");
    EmptyEnters();
    JoinIsEmpty(stack);
    JoinedDir(stack);
    if part !in {"", ".", ".."} {
      JoinedMore(stack, part);
      JoinedMore([], part);
    }
  }

  lemma EmptyEnters()
    ensures EnterAll([], Split("", '/')) == []
  {
    assert [""][1..] == [];
  }

  lemma NormalIs(path: string)
    ensures Normal(path) == Join(EnterAll([], Split(path, '/')), '/')
  {}

  lemma JoinEmpty()
    ensures Join([], '/') == ""
  {}

  lemma EnterIs(stack: seq<string>, part: string)
    requires '/' !in part
    ensures part in {"", "."} ==> Enter(stack, part) == stack
    ensures part == ".." ==> Enter(stack, part) == if |stack| == 0 then [] else stack[..|stack| - 1]
    ensures part !in {"", ".", ".."} ==> Enter(stack, part) == stack + [part]
  {}

  lemma EnterOrdinaryStack(path: string)
    ensures AllOrdinary(EnterAll([], Split(path, '/')))
  {
    NormalSegments(path);
  }

  lemma SegmentEnters(path: string, part: string)
    requires '/' !in part
    ensures Normal(path + "/" + part) == Join(Enter(EnterAll([], Split(path, '/')), part), '/')
    ensures Normal(part) == Join(Enter([], part), '/')
  {
    hide Split, Join, Enter;
    SplitConcat(path, part, '/');
    SplitPlain(part, '/');
    EnterAllConcat([], Split(path, '/'), [part]);
    EnterLast(EnterAll([], Split(path, '/')), part);
    EnterLast([], part);
  }

  lemma EnterLast(stack: seq<string>, part: string)
    ensures EnterAll(stack, [part]) == Enter(stack, part)
  {
    assert [part][1..] == [];
  }

  lemma JoinIsEmpty(stack: seq<string>)
    requires AllOrdinary(stack)
    ensures Join(stack, '/') == "" <==> stack == []
  {
    if |stack| > 0 { assert Ordinary(stack[0]); }
  }

  lemma {:induction false} JoinMore(stack: seq<string>, part: string)
    requires |stack| > 0
    ensures Join(stack + [part], '/') == Join(stack, '/') + "/" + part
  {
    if |stack| > 1 {
      JoinMore(stack[1..], part);
      assert (stack + [part])[1..] == stack[1..] + [part];
    }
  }

  lemma JoinedMore(stack: seq<string>, part: string)
    ensures Join(stack + [part], '/') == if stack == [] then part else Join(stack, '/') + "/" + part
  {
    if |stack| > 0 { JoinMore(stack, part); } else { assert [] + [part] == [part]; }
  }

  lemma JoinedDir(stack: seq<string>)
    requires AllOrdinary(stack)
    ensures DirOf(Join(stack, '/')) == Join(if |stack| == 0 then [] else stack[..|stack| - 1], '/')
  {
    hide Join, Split;
    if |stack| == 0 {
      JoinEmpty();
      LastSegment("", "");
    } else {
      SplitJoin(stack, '/');
    }
  }

  // ---- resolving, without an index

  /** The place of the first note with this name. */
  ghost predicate FirstNamed(notes: seq<Note>, i: nat, name: string) {
    i < |notes| && NoteName(notes[i]) == name && forall j :: 0 <= j < i ==> NoteName(notes[j]) != name
  }

  /** The path of a note as links are matched with it: without extension, in small letters. */
  ghost function PathText(n: Note): string {
    Lower(StripExtension(n.relPath))
  }

  ghost predicate HasPath(notes: seq<Note>, path: string) {
    exists n :: n in notes && PathText(n) == path
  }

  /** The name found is that of the first note with this path. */
  ghost predicate NameOfPath(notes: seq<Note>, path: string, found: Option<string>) {
    exists i :: 0 <= i < |notes| && PathText(notes[i]) == path && found == Some(NoteName(notes[i]))
      && forall j :: 0 <= j < i ==> PathText(notes[j]) != path
  }

  /** The places of the notes with this file name. */
  ghost function Files(notes: seq<Note>, file: string): set<nat> {
    set i | 0 <= i < |notes| && LastOf(Split(PathText(notes[i]), '/')) == file
  }

  /** Of these, the ones in this directory, case apart. */
  ghost function FilesIn(notes: seq<Note>, file: string, dir: string): set<nat> {
    set i | i in Files(notes, file) && Lower(DirOf(notes[i].relPath)) == Lower(dir)
  }

  /** The name found is that of the one note whose place is given. */
  ghost predicate NameOfOne(notes: seq<Note>, places: set<nat>, found: Option<string>) {
    |places| == 1 && exists i :: places == {i} && i < |notes| && found == Some(NoteName(notes[i]))
  }

  /** Whether a link is looked for from the linking note: when that is known, and the link is written as a path. */
  ghost predicate FromHere(raw: string, from: string) {
    from != "" && raw != "" && (raw[0] == '.' || '/' in raw)
  }

  /** The path such a link spells. */
  ghost function PathFrom(from: string, cleaned: string): string {
    Normal(if DirOf(from) != "" then DirOf(from) + "/" + cleaned else cleaned)
  }

  /**
    A link leads to the note of that canonical name; else, where it is written as a
    path, to the one with the path it spells from the linking note; else to the one
    with the path it spells from the root; else to the only note of that file name,
    or the only one of that file name in the linking note's directory; else nowhere.
   */
  lemma ResolvesInOrder(notes: seq<Note>, target: string, from: string)
    ensures var found, raw := ResolveLink(IndexOf(notes), target, from), Trim(target);
      var cleaned := Lower(StripExtension(raw));
      var file := LastOf(Split(cleaned, '/'));
      if raw == "" then found == None
      else if Named(notes, raw) then found == Some(raw)
      else if FromHere(raw, from) && HasPath(notes, PathFrom(from, cleaned)) then NameOfPath(notes, PathFrom(from, cleaned), found)
      else if HasPath(notes, Normal(cleaned)) then NameOfPath(notes, Normal(cleaned), found)
      else if |Files(notes, file)| == 1 then NameOfOne(notes, Files(notes, file), found)
      else if from != "" && |FilesIn(notes, file, DirOf(from))| == 1 then NameOfOne(notes, FilesIn(notes, file, DirOf(from)), found)
      else found == None
  {
    hide *;
    var index := IndexOf(notes);
    IndexOfIndexes(notes);
    var raw := Trim(target);
    var cleaned := Lower(StripExtension(raw));
    NameFound(notes, index, raw);
    PathFound(notes, index, PathFrom(from, cleaned));
    PathFound(notes, index, Normal(cleaned));
    FileFound(notes, index, cleaned, from);
    StepsAre(index, target, from);
    RelativeIs(index, raw, cleaned, from);
  }

  lemma StepsAre(index: LinkIndex, target: string, from: string)
    ensures var found, raw := ResolveLink(index, target, from), Trim(target);
      var cleaned := Lower(StripExtension(raw));
      if raw == "" then found == None
      else if raw in index.byName then found == Some(NoteName(index.byName[raw]))
      else if Relative(index, raw, cleaned, from).Some? then found == Relative(index, raw, cleaned, from)
      else if NameAt(index.byPath, Normal(cleaned)).Some? then found == NameAt(index.byPath, Normal(cleaned))
      else found == ByFileName(index, cleaned, from)
  {
    hide Trim, Lower, StripExtension, NoteName, NameAt, Normal, ByFileName, Relative;
  }

  lemma RelativeIs(index: LinkIndex, raw: string, cleaned: string, from: string)
    ensures Relative(index, raw, cleaned, from) == if FromHere(raw, from) then NameAt(index.byPath, PathFrom(from, cleaned)) else None
  {
    hide NameAt, Normal, DirOf;
  }

  lemma NameFound(notes: seq<Note>, index: LinkIndex, name: string)
    requires Indexes(index, notes)
    ensures name in index.byName <==> Named(notes, name)
    ensures name in index.byName ==> NoteName(index.byName[name]) == name
  {
    hide NoteName, Indexes;
    if name in index.byName { NameIndexed(index, notes, name); }
    if Named(notes, name) {
      var n :| n in notes && NoteName(n) == name;
      NameIsIndexed(index, notes, n);
    }
  }

  lemma PathFound(notes: seq<Note>, index: LinkIndex, path: string)
    requires Indexes(index, notes)
    ensures NameAt(index.byPath, path).Some? <==> HasPath(notes, path)
    ensures HasPath(notes, path) ==> NameOfPath(notes, path, NameAt(index.byPath, path))
  {
    hide NoteName, Buckets, Lower, StripExtension;
    PathKeyed(index, notes, path);
    if path in index.byPath {
      assert IsFirst(index.byPath[path], notes, PathKey, path);
    }
  }

  lemma FileFound(notes: seq<Note>, index: LinkIndex, cleaned: string, from: string)
    requires Indexes(index, notes)
    ensures var found, file := ByFileName(index, cleaned, from), LastOf(Split(cleaned, '/'));
      if |Files(notes, file)| == 1 then NameOfOne(notes, Files(notes, file), found)
      else if from != "" && |FilesIn(notes, file, DirOf(from))| == 1 then NameOfOne(notes, FilesIn(notes, file, DirOf(from)), found)
      else found == None
  {
    hide Split, Lower, DirOf, NoteName, FirstBy, Files, FilesIn, Candidates, WithStem, StemKey;
    var file := LastOf(Split(cleaned, '/'));
    FilesCounted(notes, file);
    FilesInCounted(notes, file, DirOf(from));
    assert Bucket(index, file) == WithStem(notes, file);
    FewerIn(notes, file, DirOf(from));
  }

  lemma FewerIn(notes: seq<Note>, file: string, dir: string)
    ensures |FilesIn(notes, file, dir)| <= |Files(notes, file)|
  {
    hide Files, Lower, DirOf;
    assert FilesIn(notes, file, dir) <= Files(notes, file);
    Subset(FilesIn(notes, file, dir), Files(notes, file));
  }

  lemma Subset(a: set<nat>, b: set<nat>)
    requires a <= b
    ensures |a| <= |b|
  {
    assert b == a + (b - a);
  }

  /** The bucket of a file name holds one note for each of its places. */
  ghost predicate Tallies(notes: seq<Note>, places: set<nat>, list: seq<Note>) {
    |places| == |list| && (|list| == 1 ==> exists i :: places == {i} && i < |notes| && notes[i] == list[0])
  }

  lemma TallyMore(notes: seq<Note>, n: Note, places: set<nat>, list: seq<Note>, after: set<nat>, more: seq<Note>)
    requires Tallies(notes, places, list) && forall i :: i in places ==> i < |notes|
    requires (after == places && more == list) || (after == places + {|notes|} && more == list + [n])
    ensures Tallies(notes + [n], after, more)
  {
    if after == places {
      if |list| == 1 {
        var i :| places == {i} && i < |notes| && notes[i] == list[0];
        assert (notes + [n])[i] == list[0];
      }
    } else {
      assert |after| == |places| + 1;
      if |more| == 1 {
        assert places == {};
        assert after == {|notes|} && (notes + [n])[|notes|] == more[0];
      }
    }
  }

  lemma {:induction false} FilesCounted(notes: seq<Note>, file: string)
    ensures Tallies(notes, Files(notes, file), WithStem(notes, file))
  {
    hide Files, WithStem, StemKey, Tallies;
    if |notes| == 0 {
      NoFiles(file);
      NoTally({});
    } else {
      var init, n := notes[..|notes| - 1], notes[|notes| - 1];
      FilesCounted(init, file);
      FilesMore(notes, file);
      WithStemMore(notes, file);
      FilesBelow(init, file);
      TallyMore(init, n, Files(init, file), WithStem(init, file), Files(notes, file), WithStem(notes, file));
      assert init + [n] == notes;
    }
  }

  lemma NoFiles(file: string)
    ensures Files([], file) == {} && WithStem([], file) == []
  {}

  lemma WithStemMore(notes: seq<Note>, file: string)
    requires |notes| > 0
    ensures var init, n := WithStem(notes[..|notes| - 1], file), notes[|notes| - 1];
      WithStem(notes, file) == if StemKey(n) == file then init + [n] else init
  {
    hide StemKey;
    var init := WithStem(notes[..|notes| - 1], file);
    assert init + [] == init;
  }

  lemma NoTally(places: set<nat>)
    requires places == {}
    ensures Tallies([], places, [])
  {}

  lemma FilesMore(notes: seq<Note>, file: string)
    requires |notes| > 0
    ensures var init, n := notes[..|notes| - 1], notes[|notes| - 1];
      Files(notes, file) == if StemKey(n) == file then Files(init, file) + {|init|} else Files(init, file)
  {
    hide Split, Lower, StripExtension;
    var init := notes[..|notes| - 1];
    assert forall i :: 0 <= i < |init| ==> init[i] == notes[i];
  }

  ghost function InDir(n: Note, dir: string): seq<Note> {
    if Lower(DirOf(n.relPath)) == dir then [n] else []
  }

  lemma CandidatesFirst(n: Note, list: seq<Note>, dir: string)
    ensures Candidates([n] + list, dir) == InDir(n, dir) + Candidates(list, dir)
    ensures Candidates([], dir) == []
  {
    hide Lower, DirOf;
    assert ([n] + list)[1..] == list;
  }

  lemma {:induction false} CandidatesMore(list: seq<Note>, n: Note, dir: string)
    ensures Candidates(list + [n], dir) == Candidates(list, dir) + InDir(n, dir)
  {
    hide *;
    if |list| == 0 {
      CandidatesFirst(n, [], dir);
      assert [n] + [] == [n] == list + [n] && list == [];
    } else {
      CandidatesMore(list[1..], n, dir);
      CandidatesFirst(list[0], list[1..], dir);
      CandidatesFirst(list[0], list[1..] + [n], dir);
      assert list == [list[0]] + list[1..] && list + [n] == [list[0]] + (list[1..] + [n]);
    }
  }

  lemma CandidatesOf(notes: seq<Note>, file: string, dir: string)
    requires |notes| > 0
    ensures var init, n := notes[..|notes| - 1], notes[|notes| - 1];
      var before := Candidates(WithStem(init, file), dir);
      Candidates(WithStem(notes, file), dir) == if StemKey(n) == file && Lower(DirOf(n.relPath)) == dir then before + [n] else before
  {
    hide Candidates, StemKey, Lower, DirOf;
    var init, n := notes[..|notes| - 1], notes[|notes| - 1];
    var list := WithStem(init, file);
    CandidatesMore(list, n, dir);
    assert list + [] == list && Candidates(list, dir) + [] == Candidates(list, dir);
    if StemKey(n) == file {
      assert WithStem(notes, file) == list + [n];
    } else {
      assert WithStem(notes, file) == list;
    }
  }

  lemma FilesInMore(notes: seq<Note>, file: string, dir: string)
    requires |notes| > 0
    ensures var init, n := notes[..|notes| - 1], notes[|notes| - 1];
      FilesIn(notes, file, dir) ==
        if StemKey(n) == file && Lower(DirOf(n.relPath)) == Lower(dir) then FilesIn(init, file, dir) + {|init|} else FilesIn(init, file, dir)
  {
    hide Lower, DirOf, Files, StemKey;
    FilesMore(notes, file);
    var init := notes[..|notes| - 1];
    FilesBelow(init, file);
    assert forall i :: 0 <= i < |init| ==> init[i] == notes[i];
  }

  lemma FilesBelow(notes: seq<Note>, file: string)
    ensures forall i :: i in Files(notes, file) ==> i < |notes|
  {
    hide Split, Lower, StripExtension;
  }

  lemma {:induction false} FilesInCounted(notes: seq<Note>, file: string, dir: string)
    ensures Tallies(notes, FilesIn(notes, file, dir), Candidates(WithStem(notes, file), Lower(dir)))
  {
    hide Tallies, Candidates, Files, FilesIn, StemKey, Lower, DirOf;
    if |notes| == 0 {
      NoFilesIn(file, dir);
      NoTally({});
    } else {
      var init, n := notes[..|notes| - 1], notes[|notes| - 1];
      FilesInCounted(init, file, dir);
      FilesInMore(notes, file, dir);
      CandidatesOf(notes, file, Lower(dir));
      FilesInBelow(init, file, dir);
      TallyMore(init, n, FilesIn(init, file, dir), Candidates(WithStem(init, file), Lower(dir)),
        FilesIn(notes, file, dir), Candidates(WithStem(notes, file), Lower(dir)));
      assert init + [n] == notes;
    }
  }

  lemma NoFilesIn(file: string, dir: string)
    ensures FilesIn([], file, dir) == {} && Candidates([], Lower(dir)) == [] && WithStem([], file) == []
  {}

  lemma FilesInBelow(notes: seq<Note>, file: string, dir: string)
    ensures forall i :: i in FilesIn(notes, file, dir) ==> i < |notes|
  {
    hide Lower, DirOf, Files;
    FilesBelow(notes, file);
  }
}
