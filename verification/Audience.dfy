/** packages/core/src/audience.ts: who may read a note. A note that says nothing is private. */
module Audience {
  import opened Text
  import opened Vault

  const PRIVATE: string := "private"
  const PUBLIC: string := "public"
  const EVERYTHING: string := "*"

  /** One label as it is compared. */
  function LabelOf(raw: string): string {
    Lower(Trim(raw))
  }

  /** Adds a label once, a blank one never. */
  function WithLabel(labels: seq<string>, l: string): (r: seq<string>)
    ensures forall x :: x in r <==> x in labels || (x == l && l != "")
  {
    if l == "" || l in labels then labels else labels + [l]
  }

  /** The labels as written, trimmed and lowered, each once, blanks dropped. */
  function Labels(raw: seq<string>): (r: seq<string>)
    ensures forall l :: l in r ==> l != "" && exists i :: 0 <= i < |raw| && l == LabelOf(raw[i])
    ensures forall i :: 0 <= i < |raw| && LabelOf(raw[i]) != "" ==> LabelOf(raw[i]) in r
  {
    if |raw| == 0 then [] else WithLabel(Labels(raw[..|raw| - 1]), LabelOf(raw[|raw| - 1]))
  }

  /** Normalized audience labels of a note; never empty. */
  function NoteAudiences(n: Note): (r: seq<string>)
    ensures |r| > 0
  {
    var labels := Labels(n.frontmatter.audience);
    if |labels| > 0 then labels else [PRIVATE]
  }

  predicate CanRead(scope: seq<string>, n: Note) {
    || EVERYTHING in scope
    || PUBLIC in NoteAudiences(n)
    || exists a :: a in NoteAudiences(n) && a != PRIVATE && a in scope
  }

  function Readable(notes: seq<Note>, scope: seq<string>): (r: seq<Note>)
    ensures forall n :: n in r <==> n in notes && CanRead(scope, n)
  {
    if |notes| == 0 then []
    else Readable(notes[..|notes| - 1], scope) + if CanRead(scope, notes[|notes| - 1]) then [notes[|notes| - 1]] else []
  }

  /** The notes a scope may see. */
  function FilterVisible(notes: seq<Note>, scope: seq<string>): seq<Note> {
    if EVERYTHING in scope then notes else Readable(notes, scope)
  }

  ghost predicate SameLabels(s: seq<string>, t: seq<string>) {
    forall l :: l in s <==> l in t
  }

  /** What a note's audience, as written, opens it to: everything, the public, or a label of the scope other than `private`. */
  ghost predicate OpenTo(scope: seq<string>, audience: seq<string>) {
    || "*" in scope
    || exists i :: 0 <= i < |audience| &&
         (Lower(Trim(audience[i])) == "public"
          || (Lower(Trim(audience[i])) != "" && Lower(Trim(audience[i])) != "private" && Lower(Trim(audience[i])) in scope))
  }

  /** A note is readable exactly as its written labels, trimmed and lowered, say. */
  lemma ReadableAsWritten(scope: seq<string>, n: Note)
    ensures CanRead(scope, n) <==> OpenTo(scope, n.frontmatter.audience)
  {
    hide Lower;
    hide Trim;
    var raw := n.frontmatter.audience;
    forall i | 0 <= i < |raw| ensures LabelOf(raw[i]) == Lower(Trim(raw[i])) {}
    if OpenTo(scope, raw) && "*" !in scope {
      var i :| 0 <= i < |raw| &&
         (Lower(Trim(raw[i])) == "public" || (Lower(Trim(raw[i])) != "" && Lower(Trim(raw[i])) != "private" && Lower(Trim(raw[i])) in scope));
      assert LabelOf(raw[i]) in Labels(raw);
      assert LabelOf(raw[i]) in NoteAudiences(n);
    }
  }

  /** A note that declares no audience is seen only by a scope that sees everything. */
  lemma SilentIsPrivate(scope: seq<string>, n: Note)
    requires n.frontmatter.audience == []
    ensures CanRead(scope, n) <==> EVERYTHING in scope
  {
    assert NoteAudiences(n) == [PRIVATE];
  }

  /** A public note is seen by every scope. */
  lemma PublicIsSeen(scope: seq<string>, n: Note)
    requires n.frontmatter.audience == [PUBLIC]
    ensures CanRead(scope, n)
  {
    hide Lower;
    hide Trim;
    TrimTrimmed(PUBLIC);
    LowerPlain(PUBLIC);
    assert LabelOf([PUBLIC][0]) in Labels([PUBLIC]);
  }

  /** `private` is not a label a scope can hold: granting it opens nothing. */
  lemma PrivateGrantsNothing(scope: seq<string>, n: Note)
    ensures CanRead(scope + [PRIVATE], n) <==> CanRead(scope, n)
  {}

  /** A wider scope sees no less. */
  lemma WiderSeesMore(scope: seq<string>, wider: seq<string>, n: Note)
    requires forall l :: l in scope ==> l in wider
    requires CanRead(scope, n)
    ensures CanRead(wider, n)
  {}

  /** What a scope sees depends only on which labels it holds. */
  lemma {:induction false} SeesByLabels(notes: seq<Note>, s: seq<string>, t: seq<string>)
    requires SameLabels(s, t)
    ensures Readable(notes, s) == Readable(notes, t) && FilterVisible(notes, s) == FilterVisible(notes, t)
  {
    hide NoteAudiences;
    if |notes| > 0 {
      SeesByLabels(notes[..|notes| - 1], s, t);
    }
  }
}
