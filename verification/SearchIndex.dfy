/**
  The lexical index of packages/retrieval/src/bm25.ts, as a table from name to
  document. A full build lets the first note of a name win; an upsert changes
  the one entry of a written note.
 */
module SearchIndex {
  import opened Vault

  datatype SearchDoc = SearchDoc(id: string, body: string, relPath: string, frontmatter: Frontmatter)

  type Index = map<string, SearchDoc>

  function DocOf(n: Note): SearchDoc {
    SearchDoc(NoteName(n), n.body, n.relPath, n.frontmatter)
  }

  function IndexOf(notes: seq<Note>): Index {
    if |notes| == 0 then map[]
    else
      var init, n := IndexOf(notes[..|notes| - 1]), notes[|notes| - 1];
      if NoteName(n) in init then init else init[NoteName(n) := DocOf(n)]
  }

  method BuildSearchIndex(notes: seq<Note>) returns (index: Index)
    ensures index == IndexOf(notes)
  {
    hide NoteName;
    index := map[];
    var seen: set<string> := {};
    for i := 0 to |notes|
      invariant index == IndexOf(notes[..i]) && seen == index.Keys
    {
      assert notes[..i + 1][..i] == notes[..i];
      var id := NoteName(notes[i]);
      if id in seen { continue; }
      seen := seen + {id};
      index := index[id := DocOf(notes[i])];
    }
    assert notes[..|notes|] == notes;
  }

  ghost predicate HasName(notes: seq<Note>, name: string) {
    exists i :: 0 <= i < |notes| && NoteName(notes[i]) == name
  }

  /** The index answers exactly the names of the notes. */
  lemma {:induction false} IndexNames(notes: seq<Note>, name: string)
    ensures name in IndexOf(notes) <==> HasName(notes, name)
  {
    hide NoteName;
    if |notes| > 0 {
      var init := notes[..|notes| - 1];
      IndexNames(init, name);
      assert notes == init + [notes[|notes| - 1]];
      if HasName(init, name) {
        var i :| 0 <= i < |init| && NoteName(init[i]) == name;
        assert NoteName(notes[i]) == name;
      }
    }
  }

  /** The answer is the first note of the name. */
  lemma {:induction false} IndexFirst(notes: seq<Note>, i: nat)
    requires i < |notes| && !HasName(notes[..i], NoteName(notes[i]))
    ensures NoteName(notes[i]) in IndexOf(notes) && IndexOf(notes)[NoteName(notes[i])] == DocOf(notes[i])
    ensures var doc := DocOf(notes[i]);
      doc.id == NoteName(notes[i]) && doc.body == notes[i].body && doc.relPath == notes[i].relPath && doc.frontmatter == notes[i].frontmatter
  {
    hide NoteName;
    var init := notes[..|notes| - 1];
    if i == |notes| - 1 {
      IndexNames(init, NoteName(notes[i]));
    } else {
      assert init[..i] == notes[..i] && init[i] == notes[i];
      IndexFirst(init, i);
    }
  }

  /** A note appended to the vault may be upserted exactly when its name is new, or already answered by the same document. */
  lemma UpsertAppended(notes: seq<Note>, note: Note)
    ensures IndexOf(notes + [note]) == IndexOf(notes)[NoteName(note) := DocOf(note)]
       <==> (NoteName(note) in IndexOf(notes) ==> IndexOf(notes)[NoteName(note)] == DocOf(note))
  {
    hide NoteName;
    IndexNames(notes, NoteName(note));
    assert (notes + [note])[..|notes|] == notes;
  }

  /**
    After a write the note is answered by its own document and every other name
    as before; so a note of a new name gives the index built with it appended.
   */
  method UpsertSearchDoc(index: Index, note: Note) returns (after: Index)
    ensures NoteName(note) in after && after[NoteName(note)] == SearchDoc(NoteName(note), note.body, note.relPath, note.frontmatter)
    ensures forall name :: name != NoteName(note) ==> (name in after <==> name in index)
    ensures forall name :: name != NoteName(note) && name in index && name in after ==> after[name] == index[name]
    ensures forall notes: seq<Note> :: index == IndexOf(notes) && !HasName(notes, NoteName(note)) ==> after == IndexOf(notes + [note])
  {
    hide NoteName;
    hide IndexOf;
    hide HasName;
    var doc := DocOf(note);
    if doc.id in index {
      after := index - {doc.id};
      after := after[doc.id := doc];
    } else {
      after := index[doc.id := doc];
    }
    assert after == index[doc.id := doc];
    forall notes: seq<Note> | index == IndexOf(notes) && !HasName(notes, NoteName(note)) ensures after == IndexOf(notes + [note]) {
      IndexNames(notes, NoteName(note));
      UpsertAppended(notes, note);
    }
  }

  /** A note rewritten in place under its own name, which no other note has, may be upserted. */
  lemma {:induction false} UpsertInPlace(notes: seq<Note>, at: nat, note: Note)
    requires at < |notes| && NoteName(notes[at]) == NoteName(note)
    requires forall i :: 0 <= i < |notes| && i != at ==> NoteName(notes[i]) != NoteName(note)
    ensures IndexOf(notes[at := note]) == IndexOf(notes)[NoteName(note) := DocOf(note)]
  {
    hide NoteName;
    hide DocOf;
    var init, last := notes[..|notes| - 1], notes[|notes| - 1];
    var after := notes[at := note];
    if at == |notes| - 1 {
      assert after[..|after| - 1] == init;
      IndexNames(init, NoteName(note));
    } else {
      assert after[..|after| - 1] == init[at := note];
      UpsertInPlace(init, at, note);
      InitHas(notes, at);
    }
  }

  lemma InitHas(notes: seq<Note>, at: nat)
    requires at < |notes| - 1
    ensures NoteName(notes[at]) in IndexOf(notes[..|notes| - 1])
  {
    hide NoteName;
    var init := notes[..|notes| - 1];
    IndexNames(init, NoteName(notes[at]));
    assert NoteName(init[at]) == NoteName(notes[at]);
  }

  /** The document is that of one of the notes, under its name. */
  ghost predicate IsDocument(doc: SearchDoc, notes: seq<Note>, name: string) {
    exists n :: n in notes && NoteName(n) == name && doc == SearchDoc(name, n.body, n.relPath, n.frontmatter)
  }

  /** Every document of the index is that of a note. */
  lemma {:induction false} IndexHoldsNotes(notes: seq<Note>, name: string)
    ensures name in IndexOf(notes) ==> IsDocument(IndexOf(notes)[name], notes, name)
  {
    hide NoteName;
    if |notes| > 0 {
      var init, n := notes[..|notes| - 1], notes[|notes| - 1];
      IndexHoldsNotes(init, name);
      assert notes == init + [n];
      if name in IndexOf(init) {
        var m :| m in init && NoteName(m) == name && IndexOf(init)[name] == SearchDoc(name, m.body, m.relPath, m.frontmatter);
        assert m in notes;
      } else {
        assert n in notes;
      }
    }
  }
}
