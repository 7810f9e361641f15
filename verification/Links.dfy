/** packages/core/src/links.ts: how a wikilink finds its note. */
module Links {
  // Paths are normalised without touching the file system; a link resolves by
  // canonical name, then by path from the linking note, then by path from the
  // root, then by file name when that is not ambiguous.

  import opened Text
  import opened Vault

  // ---- paths

  /** One path segment on the stack of `normalizePath`. */
  function Enter(stack: seq<string>, part: string): seq<string> {
    if part == "" || part == "." then stack
    else if part == ".." then if |stack| == 0 then stack else stack[..|stack| - 1]
    else stack + [part]
  }

  function EnterAll(stack: seq<string>, parts: seq<string>): seq<string>
    decreases |parts|
  {
    if |parts| == 0 then stack else EnterAll(Enter(stack, parts[0]), parts[1..])
  }

  function Normal(path: string): string {
    Join(EnterAll([], Split(path, '/')), '/')
  }

  method NormalizePath(path: string) returns (r: string)
    ensures r == Normal(path)
  {
    var parts := Split(path, '/');
    var out: seq<string> := [];
    for i := 0 to |parts|
      invariant EnterAll(out, parts[i..]) == EnterAll([], parts)
    {
      var part := parts[i];
      assert parts[i..][1..] == parts[i + 1..];
      if part == "" || part == "." { continue; }
      if part == ".." {
        if |out| > 0 { out := out[..|out| - 1]; }
      } else {
        out := out + [part];
      }
    }
    r := Join(out, '/');
  }

  /** A segment that names something. */
  predicate Ordinary(part: string) {
    part != "" && part != "." && part != ".." && '/' !in part
  }

  predicate AllOrdinary(parts: seq<string>) {
    forall i :: 0 <= i < |parts| ==> Ordinary(parts[i])
  }

  lemma {:induction false} EnterAllConcat(stack: seq<string>, a: seq<string>, b: seq<string>)
    ensures EnterAll(stack, a + b) == EnterAll(EnterAll(stack, a), b)
    decreases |a|
  {
    if |a| == 0 {
      assert a + b == b;
    } else {
      assert (a + b)[0] == a[0] && (a + b)[1..] == a[1..] + b;
      EnterAllConcat(Enter(stack, a[0]), a[1..], b);
    }
  }

  lemma {:induction false} EnterAllStaysOrdinary(stack: seq<string>, parts: seq<string>)
    requires AllOrdinary(stack) && Free(parts, '/')
    ensures AllOrdinary(EnterAll(stack, parts))
    decreases |parts|
  {
    if |parts| > 0 { EnterAllStaysOrdinary(Enter(stack, parts[0]), parts[1..]); }
  }

  lemma {:induction false} EnterOrdinary(stack: seq<string>, parts: seq<string>)
    requires AllOrdinary(parts)
    ensures EnterAll(stack, parts) == stack + parts
    decreases |parts|
  {
    if |parts| > 0 {
      EnterOrdinary(stack + [parts[0]], parts[1..]);
      assert stack + [parts[0]] + parts[1..] == stack + parts;
    }
  }

  /** Reading a normalised path again gives back its segments. */
  lemma ReadBack(parts: seq<string>)
    requires AllOrdinary(parts)
    ensures EnterAll([], Split(Join(parts, '/'), '/')) == parts
  {
    if |parts| == 0 {
      assert Split("", '/') == [""];
    } else {
      SplitJoin(parts, '/');
      EnterOrdinary([], parts);
    }
  }

  lemma NormalSegments(path: string)
    ensures AllOrdinary(EnterAll([], Split(path, '/')))
    ensures EnterAll([], Split(Normal(path), '/')) == EnterAll([], Split(path, '/'))
  {
    SplitFree(path, '/');
    EnterAllStaysOrdinary([], Split(path, '/'));
    ReadBack(EnterAll([], Split(path, '/')));
  }

  /** Normalising twice is normalising once. */
  lemma NormalIdempotent(path: string)
    ensures Normal(Normal(path)) == Normal(path)
  {
    NormalSegments(path);
  }

  /** A path may be normalised a prefix at a time. */
  lemma NormalByPrefix(a: string, b: string)
    ensures Normal(a + "/" + b) == Normal(Normal(a) + "/" + b)
  {
    SplitConcat(a, b, '/');
    SplitConcat(Normal(a), b, '/');
    EnterAllConcat([], Split(a, '/'), Split(b, '/'));
    EnterAllConcat([], Split(Normal(a), '/'), Split(b, '/'));
    NormalSegments(a);
  }

  // ---- the index

  function EndsWithExtension(s: string, ext: string): bool {
    |s| >= |ext| && Lower(s[|s| - |ext|..]) == ext
  }

  /** Drops one `.md` or `.markdown`, in any case. */
  function StripExtension(s: string): string {
    if EndsWithExtension(s, ".md") then s[..|s| - 3]
    else if EndsWithExtension(s, ".markdown") then s[..|s| - 9]
    else s
  }

  function PathKey(n: Note): string {
    Lower(StripExtension(n.relPath))
  }

  function StemKey(n: Note): string {
    LastOf(Split(PathKey(n), '/'))
  }

  datatype LinkIndex = LinkIndex(byName: map<string, Note>, byPath: map<string, Note>, byStem: map<string, seq<Note>>)

  /** The first note with each name and each path, and every note with each file name, of the first notes given. */
  ghost predicate Indexes(index: LinkIndex, notes: seq<Note>) {
    && FirstBy(index.byName, notes, NoteName)
    && FirstBy(index.byPath, notes, PathKey)
    && Buckets(index, notes)
  }

  function Bucket(index: LinkIndex, stem: string): seq<Note> {
    if stem in index.byStem then index.byStem[stem] else []
  }

  /** `m` holds the first note with each key, and no other. */
  ghost predicate FirstBy(m: map<string, Note>, notes: seq<Note>, key: Note -> string) {
    forall k :: if k in m then IsFirst(m[k], notes, key, k) else forall i :: 0 <= i < |notes| ==> key(notes[i]) != k
  }

  ghost predicate IsFirst(n: Note, notes: seq<Note>, key: Note -> string, k: string) {
    exists i :: 0 <= i < |notes| && notes[i] == n && key(n) == k && forall j :: 0 <= j < i ==> key(notes[j]) != k
  }

  lemma FirstByOneMore(m: map<string, Note>, notes: seq<Note>, key: Note -> string, n: Note)
    requires FirstBy(m, notes, key)
    ensures FirstBy(AddFirst(m, key(n), n), notes + [n], key)
  {
    var after := AddFirst(m, key(n), n);
    var more := notes + [n];
    forall k | k in after ensures IsFirst(after[k], more, key, k) {
      if k in m {
        var i :| 0 <= i < |notes| && notes[i] == m[k] && key(m[k]) == k && forall j :: 0 <= j < i ==> key(notes[j]) != k;
        assert more[i] == m[k];
      } else {
        assert more[|notes|] == n;
      }
    }
  }

  /** Adds the note under its key unless an earlier one holds it. */
  function AddFirst(m: map<string, Note>, key: string, n: Note): map<string, Note> {
    if key in m then m else m[key := n]
  }

  /** The notes with a file name, in order, each as often as it is there. */
  ghost function WithStem(notes: seq<Note>, stem: string): (r: seq<Note>)
    ensures forall n :: n in r <==> n in notes && StemKey(n) == stem
  {
    if |notes| == 0 then []
    else WithStem(notes[..|notes| - 1], stem) + if StemKey(notes[|notes| - 1]) == stem then [notes[|notes| - 1]] else []
  }

  ghost predicate Buckets(index: LinkIndex, notes: seq<Note>) {
    forall stem :: Bucket(index, stem) == WithStem(notes, stem)
  }

  lemma BucketsOneMore(index: LinkIndex, notes: seq<Note>, n: Note, after: LinkIndex)
    requires Buckets(index, notes)
    requires after.byStem == index.byStem[StemKey(n) := Bucket(index, StemKey(n)) + [n]]
    ensures Buckets(after, notes + [n])
  {
    hide StemKey;
    forall stem ensures Bucket(after, stem) == WithStem(notes + [n], stem) {
      assert (notes + [n])[..|notes|] == notes;
      if stem == StemKey(n) {
        assert Bucket(after, stem) == Bucket(index, stem) + [n];
      } else {
        assert Bucket(after, stem) == Bucket(index, stem);
      }
    }
  }

  function AddNote(index: LinkIndex, note: Note): LinkIndex {
    LinkIndex(
      AddFirst(index.byName, NoteName(note), note),
      AddFirst(index.byPath, PathKey(note), note),
      index.byStem[StemKey(note) := Bucket(index, StemKey(note)) + [note]])
  }

  function IndexOf(notes: seq<Note>): LinkIndex {
    if |notes| == 0 then LinkIndex(map[], map[], map[])
    else AddNote(IndexOf(notes[..|notes| - 1]), notes[|notes| - 1])
  }

  /** The index holds the first note of every name and path, and all notes of every file name. */
  lemma {:induction false} IndexOfIndexes(notes: seq<Note>)
    ensures Indexes(IndexOf(notes), notes)
  {
    hide FirstBy;
    hide Buckets;
    hide PathKey;
    hide StemKey;
    hide NoteName;
    if |notes| == 0 {
      EmptyIndexes();
    } else {
      var init, note := notes[..|notes| - 1], notes[|notes| - 1];
      assert notes == init + [note];
      IndexOfIndexes(init);
      FirstByOneMore(IndexOf(init).byName, init, NoteName, note);
      FirstByOneMore(IndexOf(init).byPath, init, PathKey, note);
      BucketsOneMore(IndexOf(init), init, note, AddNote(IndexOf(init), note));
    }
  }

  lemma EmptyIndexes()
    ensures Indexes(LinkIndex(map[], map[], map[]), [])
  {}

  method BuildLinkIndex(notes: seq<Note>) returns (index: LinkIndex)
    ensures index == IndexOf(notes)
  {
    index := LinkIndex(map[], map[], map[]);
    for i := 0 to |notes|
      invariant index == IndexOf(notes[..i])
    {
      assert notes[..i + 1][..i] == notes[..i];
      index := AddNote(index, notes[i]);
    }
    assert notes[..|notes|] == notes;
  }

  // ---- resolving

  /** The directory part of a path. */
  function DirOf(path: string): string {
    var parts := Split(path, '/');
    Join(parts[..|parts| - 1], '/')
  }

  function Candidates(notes: seq<Note>, dir: string): (r: seq<Note>)
    ensures forall n :: n in r ==> n in notes && Lower(DirOf(n.relPath)) == dir
    ensures forall n :: n in notes && Lower(DirOf(n.relPath)) == dir ==> n in r
  {
    if |notes| == 0 then []
    else (if Lower(DirOf(notes[0].relPath)) == dir then [notes[0]] else []) + Candidates(notes[1..], dir)
  }

  function NameAt(m: map<string, Note>, key: string): Option<string> {
    if key in m then Some(NoteName(m[key])) else None
  }

  /** Step 2: relative to the linking note. */
  function Relative(index: LinkIndex, raw: string, cleaned: string, from: string): Option<string> {
    if from != "" && raw != "" && (raw[0] == '.' || '/' in raw) then
      var dir := DirOf(from);
      NameAt(index.byPath, Normal(if dir != "" then dir + "/" + cleaned else cleaned))
    else None
  }

  /** Step 4: by file name alone, when only one note has it, or only one in the linking note's directory. */
  function ByFileName(index: LinkIndex, cleaned: string, from: string): Option<string> {
    var candidates := Bucket(index, LastOf(Split(cleaned, '/')));
    if |candidates| == 1 then Some(NoteName(candidates[0]))
    else if |candidates| > 1 && from != "" then
      var sameDir := Candidates(candidates, Lower(DirOf(from)));
      if |sameDir| == 1 then Some(NoteName(sameDir[0])) else None
    else None
  }

  /** `resolveLink`; `from` is empty when the linking note is not known. */
  function ResolveLink(index: LinkIndex, target: string, from: string): Option<string> {
    var raw := Trim(target);
    if raw == "" then None
    else if raw in index.byName then Some(NoteName(index.byName[raw]))
    else
      var cleaned := Lower(StripExtension(raw));
      var relative := Relative(index, raw, cleaned, from);
      if relative.Some? then relative
      else
        var fromRoot := NameAt(index.byPath, Normal(cleaned));
        if fromRoot.Some? then fromRoot else ByFileName(index, cleaned, from)
  }

  lemma IndexedNote(m: map<string, Note>, notes: seq<Note>, key: Note -> string, k: string)
    requires FirstBy(m, notes, key) && k in m
    ensures m[k] in notes && key(m[k]) == k
  {
    assert IsFirst(m[k], notes, key, k);
  }

  ghost predicate Named(notes: seq<Note>, name: string) {
    exists n :: n in notes && NoteName(n) == name
  }

  lemma NamedAt(index: LinkIndex, notes: seq<Note>, key: string)
    requires Indexes(index, notes) && key in index.byPath
    ensures Named(notes, NoteName(index.byPath[key]))
  {
    hide Buckets;
    hide PathKey;
    hide NoteName;
    IndexedNote(index.byPath, notes, PathKey, key);
  }

  lemma NamedInBucket(index: LinkIndex, notes: seq<Note>, stem: string, n: Note)
    requires Indexes(index, notes) && n in Bucket(index, stem)
    ensures Named(notes, NoteName(n))
  {
    hide FirstBy;
    hide NoteName;
    hide StemKey;
  }

  /** A link resolves to a note of the vault, or to nothing. */
  lemma ResolvesToANote(index: LinkIndex, notes: seq<Note>, target: string, from: string)
    requires Indexes(index, notes) && ResolveLink(index, target, from).Some?
    ensures Named(notes, ResolveLink(index, target, from).value)
  {
    hide Indexes;
    hide NoteName;
    hide Normal;
    hide StripExtension;
    hide DirOf;
    hide Lower;
    hide Named;
    var raw := Trim(target);
    if raw in index.byName {
      NameIndexed(index, notes, raw);
    } else {
      forall key | key in index.byPath ensures Named(notes, NoteName(index.byPath[key])) { NamedAt(index, notes, key); }
      forall stem, n | n in Bucket(index, stem) ensures Named(notes, NoteName(n)) { NamedInBucket(index, notes, stem, n); }
    }
  }

  lemma NameIndexed(index: LinkIndex, notes: seq<Note>, name: string)
    requires Indexes(index, notes) && name in index.byName
    ensures NoteName(index.byName[name]) == name && Named(notes, name)
  {
    hide Buckets;
    hide NoteName;
    IndexedNote(index.byName, notes, NoteName, name);
  }

  /** A canonical name resolves to itself, whatever the paths say. */
  lemma CanonicalNameWins(index: LinkIndex, notes: seq<Note>, n: Note, from: string)
    requires Indexes(index, notes) && n in notes && Trimmed(NoteName(n)) && NoteName(n) != ""
    ensures ResolveLink(index, NoteName(n), from) == Some(NoteName(n))
  {
    hide NoteName;
    hide Buckets;
    hide PathKey;
    TrimTrimmed(NoteName(n));
    NameIsIndexed(index, notes, n);
    NameIndexed(index, notes, NoteName(n));
  }

  lemma NameIsIndexed(index: LinkIndex, notes: seq<Note>, n: Note)
    requires Indexes(index, notes) && n in notes
    ensures NoteName(n) in index.byName
  {
    hide NoteName;
    hide Buckets;
    var i :| 0 <= i < |notes| && notes[i] == n;
    var name := NoteName(n);
    assert name in index.byName <==> !(forall j :: 0 <= j < |notes| ==> NoteName(notes[j]) != name);
  }

  // ---- links relative to the linking note

  /** The path looked up for a link written relative to the linking note. */
  function RelativeText(cleaned: string, from: string): string {
    var dir := DirOf(from);
    Normal(if dir != "" then dir + "/" + cleaned else cleaned)
  }

  lemma {:induction false} LowerTwice(s: string)
    ensures Lower(Lower(s)) == Lower(s)
  {
    LowerPlain(Lower(s));
  }

  lemma PathKeyed(index: LinkIndex, notes: seq<Note>, key: string)
    requires Indexes(index, notes)
    ensures key in index.byPath <==> exists n :: n in notes && PathKey(n) == key
  {
    hide NoteName;
    hide Buckets;
    hide PathKey;
    if key in index.byPath {
      IndexedNote(index.byPath, notes, PathKey, key);
    } else {
      forall n | n in notes ensures PathKey(n) != key {
        var i :| 0 <= i < |notes| && notes[i] == n;
        assert PathKey(notes[i]) != key;
      }
    }
  }

  /** A link resolves from the linking directory exactly when it is written as a path and some note has the path it spells, in small letters. */
  lemma RelativeResolves(index: LinkIndex, notes: seq<Note>, raw: string, cleaned: string, from: string)
    requires Indexes(index, notes)
    ensures Relative(index, raw, cleaned, from).Some? <==>
      && from != "" && raw != "" && (raw[0] == '.' || '/' in raw)
      && exists n :: n in notes && PathKey(n) == RelativeText(cleaned, from)
  {
    hide Indexes;
    hide Normal;
    hide DirOf;
    hide PathKey;
    hide NoteName;
    PathKeyed(index, notes, RelativeText(cleaned, from));
  }

  /** So a linking directory with a capital letter in it is never found. */
  lemma CapitalsAreNeverFound(index: LinkIndex, notes: seq<Note>, raw: string, cleaned: string, from: string)
    requires Indexes(index, notes) && Lower(RelativeText(cleaned, from)) != RelativeText(cleaned, from)
    ensures Relative(index, raw, cleaned, from) == None
  {
    hide Indexes;
    hide Lower;
    hide StripExtension;
    hide RelativeText;
    RelativeResolves(index, notes, raw, cleaned, from);
    forall n | n in notes ensures PathKey(n) != RelativeText(cleaned, from) {
      LowerTwice(StripExtension(n.relPath));
    }
  }

  /** A link that spells a note's path, case apart, resolves to it from the linking directory exactly when no capital is left in the text looked up. */
  lemma RelativeFindsItsTarget(index: LinkIndex, notes: seq<Note>, raw: string, cleaned: string, from: string, target: Note)
    requires Indexes(index, notes) && PathsDiffer(notes) && target in notes
    requires from != "" && raw != "" && (raw[0] == '.' || '/' in raw)
    requires PathKey(target) == Lower(RelativeText(cleaned, from))
    ensures Relative(index, raw, cleaned, from) == Some(NoteName(target)) <==> Lower(RelativeText(cleaned, from)) == RelativeText(cleaned, from)
  {
    hide Indexes;
    hide Lower;
    hide Normal;
    hide DirOf;
    hide PathKey;
    hide NoteName;
    hide NameAt;
    hide PathsDiffer;
    if Lower(RelativeText(cleaned, from)) == RelativeText(cleaned, from) {
      PathIndexed(index, notes, target);
    } else {
      CapitalsAreNeverFound(index, notes, raw, cleaned, from);
    }
  }

  /** The segments of a link to a file beside the linking note. */
  lemma BesideSegments(dir: string, here: string, base: string)
    requires Ordinary(dir) && Ordinary(base) && '/' !in here
    ensures DirOf(dir + "/" + here) == dir
    ensures Normal(dir + "/" + ("./" + base)) == dir + "/" + base
    ensures Normal("./" + base) == base
  {
    hide Split;
    SplitConcat(dir, here, '/');
    SplitPlain(dir, '/');
    SplitPlain(here, '/');
    assert ([dir] + [here])[..1] == [dir];
    assert "./" + base == "." + ['/'] + base;
    SplitConcat(".", base, '/');
    SplitPlain(".", '/');
    SplitPlain(base, '/');
    SplitConcat(dir, "./" + base, '/');
    EnterBeside(dir, base);
  }

  lemma EnterOne(stack: seq<string>, part: string, rest: seq<string>)
    ensures EnterAll(stack, [part] + rest) == EnterAll(Enter(stack, part), rest)
  {
    assert ([part] + rest)[1..] == rest;
  }

  lemma EnterNone(stack: seq<string>)
    ensures EnterAll(stack, []) == stack
  {}

  lemma EnterBeside(dir: string, base: string)
    requires Ordinary(dir) && Ordinary(base)
    ensures EnterAll([], [dir] + (["."] + [base])) == [dir, base]
    ensures EnterAll([], ["."] + [base]) == [base]
    ensures Join([dir, base], '/') == dir + "/" + base && Join([base], '/') == base
  {
    hide EnterAll;
    EnterOne([], dir, ["."] + [base]);
    EnterOne([dir], ".", [base]);
    EnterOne([], ".", [base]);
    EnterOne([dir], base, []);
    EnterOne([], base, []);
    EnterNone([dir, base]);
    EnterNone([base]);
    assert Enter([], dir) == [dir] && Enter([dir], ".") == [dir] && Enter([], ".") == [];
    assert [base] + [] == [base];
    assert [dir] + [base] == [dir, base] && [] + [dir] == [dir] && [] + [base] == [base];
    assert [dir, base][1..] == [base];
  }

  /**
    From a directory whose name has a capital letter, a link to a file beside the
    linking note skips that file and takes the one of the same name at the root.
   */
  lemma CapitalDirectoryIsSkipped(index: LinkIndex, notes: seq<Note>, dir: string, here: string, base: string)
    requires Indexes(index, notes) && Ordinary(dir) && Ordinary(base) && '/' !in here
    requires Lower(dir) != dir && Lower(base) == base
    requires Trimmed("./" + base) && StripExtension("./" + base) == "./" + base
    requires "./" + base !in index.byName && base in index.byPath
    ensures ResolveLink(index, "./" + base, dir + "/" + here) == Some(NoteName(index.byPath[base]))
  {
    hide *;
    var raw, from := "./" + base, dir + "/" + here;
    TrimTrimmed(raw);
    LowerConcat("./", base);
    LowerPlain("./");
    BesideSegments(dir, here, base);
    CapitalText(dir, here, base);
    CapitalsAreNeverFound(index, notes, raw, raw, from);
    FoundAtTheRoot(index, raw, raw, from, base);
  }

  lemma CapitalText(dir: string, here: string, base: string)
    requires Ordinary(dir) && Ordinary(base) && '/' !in here && Lower(dir) != dir && Lower(base) == base
    ensures Lower(RelativeText("./" + base, dir + "/" + here)) != RelativeText("./" + base, dir + "/" + here)
  {
    hide Lower;
    hide Normal;
    hide DirOf;
    BesideSegments(dir, here, base);
    LowerConcat(dir + "/", base);
    LowerConcat(dir, "/");
    LowerPlain("/");
    PrefixDiffers(Lower(dir), dir, "/", base);
  }

  /** Where the relative lookup finds nothing and the path from the root is indexed. */
  lemma FoundAtTheRoot(index: LinkIndex, raw: string, cleaned: string, from: string, key: string)
    requires Trim(raw) == raw && raw != "" && raw !in index.byName && Lower(StripExtension(raw)) == cleaned
    requires Relative(index, raw, cleaned, from) == None && Normal(cleaned) == key && key in index.byPath
    ensures ResolveLink(index, raw, from) == Some(NoteName(index.byPath[key]))
  {
    hide Normal;
    hide StripExtension;
    hide NoteName;
    hide Lower;
    hide Trim;
    hide Relative;
  }

  lemma PrefixDiffers(a: string, b: string, mid: string, rest: string)
    requires |a| == |b| && a != b
    ensures a + mid + rest != b + mid + rest
  {
    assert (a + mid + rest)[..|a|] == a && (b + mid + rest)[..|b|] == b;
  }

  function Plain(relPath: string, name: string): Note {
    Note(relPath, Frontmatter(name, "", [], [], [], []), "", [])
  }

  function ThreeNotes(): seq<Note> {
    [Plain("Projects/notes.md", "project-notes"), Plain("Projects/acme.md", "acme"), Plain("notes.md", "root-notes")]
  }

  lemma KeyOf(n: Note, base: string)
    requires n.relPath == base + ".md" && Lower(base) == base
    ensures PathKey(n) == base
  {
    var t := base + ".md";
    assert t[|t| - 3..] == ".md" && t[..|t| - 3] == base;
    LowerPlain(".md");
  }

  /** Such a vault: `[[./notes]]` in `Projects/acme.md` reaches `notes.md`, although `Projects/notes.md` is there. */
  lemma NotesBesideAcme(index: LinkIndex)
    requires Indexes(index, ThreeNotes())
    ensures ResolveLink(index, "./notes", "Projects/acme.md") == Some("root-notes")
  {
    hide *;
    RootNotes(index);
    NoSuchName(index);
    PlainTexts();
    CapitalDirectoryIsSkipped(index, ThreeNotes(), "Projects", "acme.md", "notes");
  }

  lemma RootNotes(index: LinkIndex)
    requires Indexes(index, ThreeNotes())
    ensures "notes" in index.byPath && NoteName(index.byPath["notes"]) == "root-notes"
  {
    hide Indexes;
    hide PathKey;
    var notes := ThreeNotes();
    LowerPlain("notes");
    KeyOf(notes[2], "notes");
    PathKeyed(index, notes, "notes");
    IndexedPath(index, notes, "notes");
    OtherKeys();
  }

  lemma PlainTexts()
    ensures Ordinary("Projects") && Ordinary("notes") && '/' !in "acme.md" && Trimmed("./notes")
    ensures Lower("Projects") != "Projects" && Lower("notes") == "notes"
    ensures "Projects" + "/" + "acme.md" == "Projects/acme.md" && "./" + "notes" == "./notes"
    ensures StripExtension("./" + "notes") == "./" + "notes"
  {
    hide *;
    PlainSegments();
    PlainLetters();
    NoExtension();
    assert "./" + "notes" == "./notes";
    assert "Projects" + "/" + "acme.md" == "Projects/acme.md";
  }

  lemma PlainSegments()
    ensures Ordinary("Projects") && Ordinary("notes") && '/' !in "acme.md" && Trimmed("./notes")
  {
    assert |"Projects"| == 8 && |"notes"| == 5;
  }

  lemma PlainLetters()
    ensures Lower("Projects") != "Projects" && Lower("notes") == "notes"
  {
    LowerPlain("notes");
    assert Lower("Projects")[0] == LowerChar('P') == 'p';
  }

  lemma IndexedPath(index: LinkIndex, notes: seq<Note>, key: string)
    requires Indexes(index, notes) && key in index.byPath
    ensures index.byPath[key] in notes && PathKey(index.byPath[key]) == key
  {
    hide PathKey;
    hide NoteName;
    hide Buckets;
    IndexedNote(index.byPath, notes, PathKey, key);
  }

  lemma OtherKeys()
    ensures PathKey(ThreeNotes()[0]) != "notes" && PathKey(ThreeNotes()[1]) != "notes"
  {
    hide PathKey;
    KeyLength(ThreeNotes()[0]);
    KeyLength(ThreeNotes()[1]);
    assert |ThreeNotes()[0].relPath| == 17 && |ThreeNotes()[1].relPath| == 16 && |"notes"| == 5;
  }

  lemma KeyLength(n: Note)
    ensures |PathKey(n)| >= |n.relPath| - 9
  {
    hide EndsWithExtension;
    hide Lower;
    ExtensionFits(n.relPath);
  }

  lemma ExtensionFits(s: string)
    ensures EndsWithExtension(s, ".md") ==> |s| >= 3
    ensures EndsWithExtension(s, ".markdown") ==> |s| >= 9
  {
    hide Lower;
    assert |".md"| == 3 && |".markdown"| == 9;
  }

  lemma NoSuchName(index: LinkIndex)
    requires Indexes(index, ThreeNotes())
    ensures "./notes" !in index.byName
  {
    hide PathKey;
    hide Buckets;
    if "./notes" in index.byName {
      IndexedNote(index.byName, ThreeNotes(), NoteName, "./notes");
    }
  }

  lemma NoExtension()
    ensures StripExtension("./notes") == "./notes"
  {
    assert "./notes"[4..] == "tes";
    assert Lower("tes")[0] == 't' && ".md"[0] == '.';
  }

  // ---- plain paths in a note at the root

  /** A path of small letters without extension, written in full. */
  predicate Plainly(text: string) {
    text != "" && Trimmed(text) && Lower(text) == text && StripExtension(text) == text && AllOrdinary(Split(text, '/'))
  }

  lemma NotAnExtension(s: string, ext: string)
    requires '.' !in s && ext != "" && ext[0] == '.'
    ensures !EndsWithExtension(s, ext)
  {
    if |s| >= |ext| {
      var tail := s[|s| - |ext|..];
      assert tail[0] in s;
      assert Lower(tail)[0] == LowerChar(tail[0]) != '.';
    }
  }

  lemma NoDotNoExtension(s: string)
    requires '.' !in s
    ensures StripExtension(s) == s
  {
    hide EndsWithExtension;
    NotAnExtension(s, ".md");
    NotAnExtension(s, ".markdown");
  }

  lemma TwoSegments(a: string, b: string)
    requires Ordinary(a) && Ordinary(b)
    ensures Split(a + "/" + b, '/') == [a, b] && AllOrdinary([a, b])
  {
    hide Split;
    SplitConcat(a, b, '/');
    SplitPlain(a, '/');
    SplitPlain(b, '/');
  }

  lemma FileAtTheRoot(from: string)
    requires '/' !in from
    ensures DirOf(from) == ""
  {
    SplitPlain(from, '/');
  }

  lemma StemAtTheRoot(n: Note)
    requires '/' !in PathKey(n)
    ensures StemKey(n) == PathKey(n)
  {
    hide PathKey;
    SplitPlain(PathKey(n), '/');
  }

  lemma PlainlyTwo(a: string, b: string)
    requires Ordinary(a) && Ordinary(b) && Lower(a + "/" + b) == a + "/" + b
    requires '.' !in a + "/" + b && Trimmed(a + "/" + b)
    ensures Plainly(a + "/" + b)
  {
    hide Split;
    hide Lower;
    hide StripExtension;
    hide AllOrdinary;
    TwoSegments(a, b);
    NoDotNoExtension(a + "/" + b);
  }

  lemma SomethingIn(notes: seq<Note>)
    ensures notes != [] ==> exists n :: n in notes
  {
    if notes != [] { assert notes[0] in notes; }
  }

  lemma NoBucket(index: LinkIndex, notes: seq<Note>, stem: string)
    requires Indexes(index, notes) && forall n :: n in notes ==> StemKey(n) != stem
    ensures Bucket(index, stem) == []
  {
    hide StemKey;
    hide FirstBy;
    SomethingIn(WithStem(notes, stem));
  }

  /** What no note is called, neither by name nor by path nor by file, leads nowhere. */
  lemma UnknownText(index: LinkIndex, notes: seq<Note>, text: string, from: string)
    requires Indexes(index, notes) && Plainly(text) && DirOf(from) == ""
    requires forall n :: n in notes ==> NoteName(n) != text && PathKey(n) != text && StemKey(n) != LastOf(Split(text, '/'))
    ensures ResolveLink(index, text, from) == None
  {
    hide Indexes;
    hide NoteName;
    hide PathKey;
    hide StemKey;
    hide Normal;
    hide StripExtension;
    hide Lower;
    hide Trim;
    hide DirOf;
    TrimTrimmed(text);
    NormalOfOrdinary(text);
    PathKeyed(index, notes, text);
    NoBucket(index, notes, LastOf(Split(text, '/')));
    if text in index.byName { NameIndexed(index, notes, text); }
  }

  /** The path of a note, which nobody has for a name, leads to the note. */
  lemma PathFromTheRoot(index: LinkIndex, notes: seq<Note>, text: string, from: string, target: Note)
    requires Indexes(index, notes) && Plainly(text) && DirOf(from) == "" && PathsDiffer(notes)
    requires target in notes && PathKey(target) == text && forall n :: n in notes ==> NoteName(n) != text
    ensures ResolveLink(index, text, from) == Some(NoteName(target))
  {
    hide Indexes;
    hide NoteName;
    hide PathKey;
    hide Normal;
    hide StripExtension;
    hide Lower;
    hide Trim;
    hide DirOf;
    hide PathsDiffer;
    hide NameAt;
    TrimTrimmed(text);
    NormalOfOrdinary(text);
    PathIndexed(index, notes, target);
    if text in index.byName { NameIndexed(index, notes, text); }
  }

  // ---- the link that climbs to the root

  function Climb(depth: nat): string {
    if depth == 0 then "" else "../" + Climb(depth - 1)
  }

  function Ups(depth: nat): seq<string> {
    if depth == 0 then [] else [".."] + Ups(depth - 1)
  }

  lemma SplitUp(rest: string)
    ensures Split("../" + rest, '/') == [".."] + Split(rest, '/')
  {
    hide Split;
    assert "../" + rest == ".." + ['/'] + rest;
    SplitConcat("..", rest, '/');
    SplitPlain("..", '/');
  }

  lemma {:induction false} SplitClimb(depth: nat, path: string)
    ensures Split(Climb(depth) + path, '/') == Ups(depth) + Split(path, '/')
  {
    hide Split;
    if depth == 0 {
      assert Climb(depth) + path == path;
      assert Ups(0) + Split(path, '/') == Split(path, '/');
    } else {
      SplitClimb(depth - 1, path);
      SplitUp(Climb(depth - 1) + path);
      OneUp(Climb(depth - 1), path, Ups(depth - 1), Split(path, '/'));
    }
  }

  lemma OneUp(climb: string, path: string, ups: seq<string>, parts: seq<string>)
    ensures "../" + climb + path == "../" + (climb + path)
    ensures [".."] + ups + parts == [".."] + (ups + parts)
  {}

  lemma {:induction false} ClimbOut(stack: seq<string>)
    ensures EnterAll(stack, Ups(|stack|)) == []
    decreases |stack|
  {
    if |stack| > 0 {
      var depth := |stack|;
      assert Ups(depth)[0] == ".." && Ups(depth)[1..] == Ups(depth - 1);
      ClimbOut(stack[..depth - 1]);
    }
  }

  /** From a directory of ordinary segments, climbing out and reading a path reads the path. */
  lemma ClimbAndRead(dir: seq<string>, path: string)
    requires AllOrdinary(dir)
    ensures Normal(if |dir| > 0 then Join(dir, '/') + "/" + (Climb(|dir|) + path) else path) == Normal(path)
  {
    if |dir| > 0 {
      var up := Climb(|dir|) + path;
      SplitConcat(Join(dir, '/'), up, '/');
      SplitJoin(dir, '/');
      SplitClimb(|dir|, path);
      EnterAllConcat([], dir, Ups(|dir|) + Split(path, '/'));
      EnterOrdinary([], dir);
      assert [] + dir == dir;
      EnterAllConcat(dir, Ups(|dir|), Split(path, '/'));
      ClimbOut(dir);
    }
  }

  lemma {:induction false} LowerClimb(depth: nat)
    ensures Lower(Climb(depth)) == Climb(depth)
  {
    hide Lower;
    LowerPlain("");
    if depth > 0 {
      LowerClimb(depth - 1);
      LowerConcat("../", Climb(depth - 1));
      LowerPlain("../");
    }
  }

  lemma StripAfterClimb(depth: nat, base: string)
    ensures StripExtension(Climb(depth) + base + ".md") == Climb(depth) + base
    ensures StripExtension(base + ".md") == base
  {
    var s, t := Climb(depth) + base + ".md", base + ".md";
    assert s[|s| - 3..] == ".md" && t[|t| - 3..] == ".md";
    LowerPlain(".md");
    assert s[..|s| - 3] == Climb(depth) + base && t[..|t| - 3] == base;
  }

  /** Two notes never share a path, case and extension apart. */
  ghost predicate PathsDiffer(notes: seq<Note>) {
    forall m, n :: m in notes && n in notes && PathKey(m) == PathKey(n) ==> m == n
  }

  lemma PathIndexed(index: LinkIndex, notes: seq<Note>, n: Note)
    requires Indexes(index, notes) && n in notes && PathsDiffer(notes)
    ensures NameAt(index.byPath, PathKey(n)) == Some(NoteName(n))
  {
    hide NoteName;
    hide Buckets;
    hide PathKey;
    var i :| 0 <= i < |notes| && notes[i] == n;
    var key := PathKey(n);
    assert key in index.byPath <==> !(forall j :: 0 <= j < |notes| ==> PathKey(notes[j]) != key);
    IndexedNote(index.byPath, notes, PathKey, key);
  }

  /** A path in normal form is its own normal form. */
  lemma NormalOfOrdinary(path: string)
    requires AllOrdinary(Split(path, '/'))
    ensures Normal(path) == path
  {
    EnterOrdinary([], Split(path, '/'));
    assert [] + Split(path, '/') == Split(path, '/');
    JoinSplit(path, '/');
  }

  /** The text climbs out of `from`'s directory to the root and then spells the target's path. */
  function ClimbingLink(from: string, target: Note): string {
    Climb(|Split(from, '/')| - 1) + target.relPath
  }

  /**
    From any note, climbing to the root and writing another note's file path
    reaches that note, unless the text happens to be somebody's canonical name.
   */
  lemma ClimbingLinkResolves(index: LinkIndex, notes: seq<Note>, from: string, target: Note, base: string)
    requires Indexes(index, notes) && target in notes && PathsDiffer(notes)
    requires target.relPath == base + ".md" && AllOrdinary(Split(Lower(base), '/'))
    requires AllOrdinary(Split(from, '/')[..|Split(from, '/')| - 1])
    requires Trimmed(ClimbingLink(from, target))
    requires ClimbingLink(from, target) !in index.byName
    ensures ResolveLink(index, ClimbingLink(from, target), from) == Some(NoteName(target))
  {
    hide *;
    var dir := Split(from, '/')[..|Split(from, '/')| - 1];
    var raw := ClimbingLink(from, target);
    TrimTrimmed(raw);
    ClimbCleaned(|dir|, base);
    ClimbingText(from, target, base);
    NormalOfOrdinary(Lower(base));
    ClimbAndRead(dir, Lower(base));
    PathIndexed(index, notes, target);
    ClimbResolves(index, raw, Climb(|dir|) + Lower(base), from, dir, Lower(base), NoteName(target));
  }

  lemma ClimbingText(from: string, target: Note, base: string)
    requires target.relPath == base + ".md"
    ensures var depth := |Split(from, '/')| - 1;
      && ClimbingLink(from, target) == Climb(depth) + base + ".md"
      && ClimbingLink(from, target) != ""
      && (depth > 0 ==> ClimbingLink(from, target)[0] == '.')
      && PathKey(target) == Lower(StripExtension(base + ".md"))
  {
    hide StripExtension;
    hide Lower;
  }

  lemma ClimbCleaned(depth: nat, base: string)
    ensures Lower(StripExtension(Climb(depth) + base + ".md")) == Climb(depth) + Lower(base)
    ensures Lower(StripExtension(base + ".md")) == Lower(base)
  {
    StripAfterClimb(depth, base);
    LowerConcat(Climb(depth), base);
    LowerClimb(depth);
  }

  /** Steps 2 and 3 of the resolution, for a climbing link whose target is indexed under `key`. */
  lemma ClimbResolves(index: LinkIndex, raw: string, cleaned: string, from: string, dir: seq<string>, key: string, name: string)
    requires raw != "" && Trim(raw) == raw && raw !in index.byName
    requires Lower(StripExtension(raw)) == cleaned && cleaned == Climb(|dir|) + key
    requires dir == Split(from, '/')[..|Split(from, '/')| - 1] && AllOrdinary(dir)
    requires Normal(key) == key && NameAt(index.byPath, key) == Some(name)
    requires |dir| > 0 ==> raw[0] == '.'
    requires Normal(if |dir| > 0 then Join(dir, '/') + "/" + (Climb(|dir|) + key) else key) == key
    ensures ResolveLink(index, raw, from) == Some(name)
  {
    hide Normal;
    hide StripExtension;
    hide NameAt;
    hide Lower;
    hide Trim;
    hide AllOrdinary;
    if |dir| > 0 {
      JoinNotEmpty(dir);
    } else {
      assert Join(dir, '/') == "";
      assert Climb(0) + key == key;
    }
  }

  lemma JoinNotEmpty(parts: seq<string>)
    requires |parts| > 0 && AllOrdinary(parts)
    ensures Join(parts, '/') != ""
  {}
}
