/** packages/server/src/identity.ts: who is calling, and the key under which a filtered view is kept. */
module Identity {
  import opened Text
  import opened Audience

  datatype Identity = Identity(name: string, owner: bool, read: seq<string>)

  // ---- the order `sort` uses

  predicate Before(a: string, b: string) {
    if b == "" then false
    else if a == "" then true
    else if a[0] != b[0] then a[0] < b[0]
    else Before(a[1..], b[1..])
  }

  lemma {:induction false} BeforeTotal(a: string, b: string)
    ensures a != b ==> Before(a, b) || Before(b, a)
    ensures !(Before(a, b) && Before(b, a)) && !Before(a, a)
  {
    if a != "" && b != "" {
      BeforeTotal(a[1..], b[1..]);
      BeforeTotal(a[1..], a[1..]);
      if a[0] == b[0] && a[1..] == b[1..] {
        assert a == [a[0]] + a[1..] && b == [b[0]] + b[1..];
      }
    } else if a != "" {
      BeforeTotal(a[1..], a[1..]);
    }
  }

  lemma {:induction false} BeforeTransitive(a: string, b: string, c: string)
    requires Before(a, b) && Before(b, c)
    ensures Before(a, c)
  {
    if a != "" && a[0] == b[0] == c[0] { BeforeTransitive(a[1..], b[1..], c[1..]); }
  }

  ghost predicate Sorted(s: seq<string>) {
    forall i, j :: 0 <= i < j < |s| ==> Before(s[i], s[j])
  }

  /** Adds a label in its place, once. */
  function Insert(s: seq<string>, l: string): seq<string> {
    if |s| == 0 then [l]
    else if l == s[0] then s
    else if Before(l, s[0]) then [l] + s
    else [s[0]] + Insert(s[1..], l)
  }

  lemma {:induction false} InsertKeeps(s: seq<string>, l: string)
    requires Sorted(s)
    ensures Sorted(Insert(s, l))
    ensures forall x :: x in Insert(s, l) <==> x in s || x == l
  {
    if |s| > 0 && l != s[0] {
      BeforeTotal(l, s[0]);
      if Before(l, s[0]) {
        var r := [l] + s;
        forall j | 0 < j < |r| ensures Before(l, r[j]) {
          if j > 1 { BeforeTransitive(l, s[0], s[j - 1]); }
        }
      } else {
        InsertKeeps(s[1..], l);
        var r := Insert(s[1..], l);
        forall j | 0 <= j < |r| ensures Before(s[0], r[j]) {
          assert r[j] in r;
        }
        assert forall x :: x in s <==> x == s[0] || x in s[1..];
      }
    }
  }

  function SortedLabels(read: seq<string>): seq<string> {
    if |read| == 0 then [] else Insert(SortedLabels(read[..|read| - 1]), read[|read| - 1])
  }

  lemma {:induction false} SortedLabelsKeep(read: seq<string>)
    ensures Sorted(SortedLabels(read)) && SameLabels(SortedLabels(read), read)
  {
    if |read| > 0 {
      SortedLabelsKeep(read[..|read| - 1]);
      InsertKeeps(SortedLabels(read[..|read| - 1]), read[|read| - 1]);
    }
  }

  /** Two sorted lists with the same labels are the same list. */
  lemma {:induction false} SortedUnique(s: seq<string>, t: seq<string>)
    requires Sorted(s) && Sorted(t) && SameLabels(s, t)
    ensures s == t
  {
    BothEmpty(s, t);
    if |s| > 0 {
      SameFirst(s, t);
      SameFirst(t, s);
      BeforeTotal(s[0], t[0]);
      SameRest(s, t);
      SameRest(t, s);
      SortedUnique(s[1..], t[1..]);
      assert s == [s[0]] + s[1..] && t == [t[0]] + t[1..];
    }
  }

  lemma BothEmpty(s: seq<string>, t: seq<string>)
    requires SameLabels(s, t)
    ensures |s| == 0 <==> |t| == 0
  {
    if |s| > 0 { assert s[0] in s; }
    if |t| > 0 { assert t[0] in t; }
  }

  lemma SameFirst(s: seq<string>, t: seq<string>)
    requires Sorted(s) && Sorted(t) && SameLabels(s, t) && |s| > 0 && |t| > 0
    ensures s[0] == t[0] || Before(t[0], s[0])
  {
    assert s[0] in t;
  }

  lemma SameRest(s: seq<string>, t: seq<string>)
    requires Sorted(s) && Sorted(t) && SameLabels(s, t) && |s| > 0 && |t| > 0 && s[0] == t[0]
    ensures forall x :: x in s[1..] ==> x in t[1..]
  {
    forall x | x in s[1..] ensures x in t[1..] {
      var i :| 0 < i < |s| && s[i] == x;
      BeforeTotal(s[0], x);
      assert x in t;
      var j :| 0 <= j < |t| && t[j] == x;
      assert t[1..][j - 1] == x;
    }
  }

  // ---- the grammar of labels

  predicate Alphanumeric(c: char) {
    'a' <= c <= 'z' || '0' <= c <= '9'
  }

  /** What `loadAgents` accepts as one label of a scope. */
  predicate GoodLabel(l: string) {
    l == "*" || (|l| > 0 && Alphanumeric(l[0]) && forall i :: 0 <= i < |l| ==> Alphanumeric(l[i]) || l[i] == '_' || l[i] == '-')
  }

  /** What `loadAgents` accepts as a scope: labels only, and never `private`. */
  predicate GoodScope(read: seq<string>) {
    PRIVATE !in read && forall i :: 0 <= i < |read| ==> GoodLabel(read[i])
  }

  function ScopeKey(id: Identity): string {
    if id.owner then "*" else Join(SortedLabels(id.read), ',')
  }

  lemma GoodLabelsSplit(read: seq<string>)
    requires forall i :: 0 <= i < |read| ==> GoodLabel(read[i])
    ensures |read| > 0 ==> Split(Join(SortedLabels(read), ','), ',') == SortedLabels(read)
    ensures |read| == 0 <==> Join(SortedLabels(read), ',') == ""
  {
    SortedLabelsKeep(read);
    var labels := SortedLabels(read);
    forall i | 0 <= i < |labels| ensures GoodLabel(labels[i]) { assert labels[i] in read; }
    if |read| > 0 {
      assert read[0] in labels;
      SplitJoin(labels, ',');
    }
  }

  /** Two scopes share a key exactly when they hold the same labels. */
  lemma ScopeKeySeparates(a: Identity, b: Identity)
    requires !a.owner && !b.owner && GoodScope(a.read) && GoodScope(b.read)
    ensures ScopeKey(a) == ScopeKey(b) <==> SameLabels(a.read, b.read)
  {
    GoodLabelsSplit(a.read);
    GoodLabelsSplit(b.read);
    SortedLabelsKeep(a.read);
    SortedLabelsKeep(b.read);
    if SameLabels(a.read, b.read) {
      SortedUnique(SortedLabels(a.read), SortedLabels(b.read));
    }
  }

  /** Without the label grammar two different scopes can share a key. */
  lemma CommaConfusesKeys()
    ensures exists a: Identity, b: Identity :: !a.owner && !b.owner && ScopeKey(a) == ScopeKey(b) && !SameLabels(a.read, b.read)
  {
    var a, b := Identity("a", false, ["x,y"]), Identity("b", false, ["x", "y"]);
    assert Before("x", "y") && !Before("y", "x");
    assert b.read[..1] == ["x"];
    assert SortedLabels(["x"]) == ["x"];
    assert SortedLabels(b.read) == ["x", "y"] && SortedLabels(a.read) == ["x,y"];
    assert ScopeKey(b) == "x" + "," + "y" == "x,y";
    assert "x" in b.read && "x" !in a.read;
    assert ScopeKey(a) == ScopeKey(b) && !SameLabels(a.read, b.read);
  }
}
