/** The invariant of one namespace of the store: the stored prefixes form a forest
    in which children are disjoint, reserved in their parent, and lie inside it. */
module Forest {
  import opened Options
  import opened Cidrs
  import opened Records

  /** The records of one namespace, by network. */
  type Stored = map<Cidr, Record>

  predicate Linked(s: Stored, c: Cidr)
    requires c in s
  {
    s[c].parent.Some? ==> s[c].parent.value in s && c in Taken(s[s[c].parent.value])
  }

  predicate RootsDisjoint(s: Stored) {
    forall c, d | c in s && d in s && c != d && s[c].parent.None? && s[d].parent.None? :: !Covers(c, d)
  }

  predicate IsForest(s: Stored) {
    && (forall c | c in s :: s[c].cidr == c && RecordOk(s[c]) && Linked(s, c))
    && RootsDisjoint(s)
  }

  /** `a` is `c` or is reached from `c` by following parent links. */
  predicate Ancestor(s: Stored, a: Cidr, c: Cidr)
    requires IsForest(s) && c in s
    decreases c.bits
  {
    a == c || (s[c].parent.Some? && StrictlyShorter(s, c) && Ancestor(s, a, s[c].parent.value))
  }

  /** A parent link always leads to a shorter prefix, so following links ends at a root. */
  predicate StrictlyShorter(s: Stored, c: Cidr)
    requires IsForest(s) && c in s && s[c].parent.Some?
    ensures StrictlyShorter(s, c)
  {
    var p := s[c].parent.value;
    assert RecordOk(s[p]) && c in Taken(s[p]);
    CoversAntisymmetric(p, c);
    p.bits < c.bits
  }

  lemma {:induction false} AncestorCovers(s: Stored, a: Cidr, c: Cidr)
    requires IsForest(s) && c in s && Ancestor(s, a, c)
    ensures a in s && Covers(a, c)
    decreases c.bits
  {
    if a == c {
      CoversReflexive(c);
    } else {
      var p := s[c].parent.value;
      AncestorCovers(s, a, p);
      CoversTransitive(a, p, c);
    }
  }

  /** Below a proper ancestor `a`, the path to `c` goes through one taken child of `a`. */
  lemma {:induction false} ChildOnPath(s: Stored, a: Cidr, c: Cidr) returns (k: Cidr)
    requires IsForest(s) && c in s && Ancestor(s, a, c) && a != c
    ensures a in s && k in s && k in Taken(s[a]) && Ancestor(s, k, c) && Covers(k, c)
    decreases c.bits
  {
    var p := s[c].parent.value;
    if p == a {
      k := c;
      CoversReflexive(c);
    } else {
      k := ChildOnPath(s, a, p);
      CoversTransitive(k, p, c);
    }
  }

  /** The laminar law: stored prefixes that overlap are nested along the parent links. */
  lemma {:induction false} Laminar(s: Stored, c: Cidr, d: Cidr)
    requires IsForest(s) && c in s && d in s && Overlaps(c, d)
    ensures Ancestor(s, c, d) || Ancestor(s, d, c)
  {
    OverlapsIsNesting(c, d);
    if Covers(c, d) {
      CoveringIsAncestor(s, c, d);
    } else {
      CoveringIsAncestor(s, d, c);
    }
  }

  lemma {:induction false} CoveringIsAncestor(s: Stored, c: Cidr, d: Cidr)
    requires IsForest(s) && c in s && d in s && Covers(c, d)
    ensures Ancestor(s, c, d)
    decreases c.bits + d.bits
  {
    if c == d {
    } else if s[d].parent.None? {
      CoversAntisymmetric(c, d);
      if s[c].parent.Some? {
        var p := s[c].parent.value;
        assert StrictlyShorter(s, c);
        CoversTransitive(p, c, d);
        CoveringIsAncestor(s, p, d);
        AncestorCovers(s, p, d);
      }
    } else {
      var p := s[d].parent.value;
      assert StrictlyShorter(s, d);
      CoversAntisymmetric(c, d);
      if c.bits <= p.bits {
        CoversLinear(c, p, d);
        CoveringIsAncestor(s, c, p);
      } else {
        CoversLinear(p, c, d);
        CoveringIsAncestor(s, p, c);
        var k := ChildOnPath(s, p, c);
        CoversTransitive(k, c, d);
        TakenNested(s[p], k, d);
        AncestorCovers(s, k, c);
        CoversAntisymmetric(c, d);
      }
    }
  }

  /** Taken children of one record that are nested are equal. */
  lemma TakenNested(r: Record, j: Cidr, k: Cidr)
    requires RecordOk(r) && j in Taken(r) && k in Taken(r) && Covers(j, k)
    ensures j == k
  {
  }

  /** A stored prefix that is taken in a stored record has that record as its parent. */
  lemma TakenIsChild(s: Stored, p: Cidr, c: Cidr)
    requires IsForest(s) && p in s && c in s && c in Taken(s[p])
    ensures s[c].parent == Some(p)
  {
    assert RecordOk(s[p]) && Covers(p, c) && c != p;
    CoveringIsAncestor(s, p, c);
    assert StrictlyShorter(s, c);
    var q := s[c].parent.value;
    if q != p {
      var k := ChildOnPath(s, p, q);
      assert RecordOk(s[q]) && Covers(q, c);
      CoversTransitive(k, q, c);
      TakenNested(s[p], k, c);
    }
  }

  // ---- What each operation does to the forest ----

  /** A new root is admitted when it overlaps no stored prefix. */
  lemma AddRoot(s: Stored, c: Cidr, namespace: string)
    requires IsForest(s) && IsNetwork(c) && forall d | d in s :: !Overlaps(d, c)
    ensures c !in s && IsForest(s[c := NewRecord(c, None, namespace)])
  {
    NewRecordOk(c, None, namespace);
    forall d | d in s ensures d != c && !Covers(c, d) && !Covers(d, c) {
      OverlapsIsNesting(d, c);
      CoversReflexive(d);
    }
  }

  /** No stored prefix lies in free space: creating an acquired child can never collide. */
  lemma FreeIsUnstored(s: Stored, p: Cidr, c: Cidr)
    requires IsForest(s) && p in s && FreeNetwork(s[p], c) && c != p
    ensures c !in s
  {
    if c in s {
      CoveringIsAncestor(s, p, c);
      var k := ChildOnPath(s, p, c);
    }
  }

  /** Replacing a record keeps the forest if its stored children stay taken. */
  lemma ReplaceRecord(s: Stored, p: Cidr, r: Record)
    requires IsForest(s) && p in s && RecordOk(r) && r.cidr == p && r.parent == s[p].parent
    requires forall c | c in s && s[c].parent == Some(p) :: c in Taken(r)
    ensures IsForest(s[p := r])
  {
    var t := s[p := r];
    forall c | c in t ensures t[c].cidr == c && RecordOk(t[c]) && Linked(t, c) {
      assert Linked(s, c);
    }
  }

  lemma InsertChild(s: Stored, p: Cidr, c: Cidr, r: Record)
    requires IsForest(s) && c !in s && p in s && c in Taken(s[p])
    requires RecordOk(r) && r.cidr == c && r.parent == Some(p)
    ensures IsForest(s[c := r])
  {
    var t := s[c := r];
    forall d | d in t ensures t[d].cidr == d && RecordOk(t[d]) && Linked(t, d) {
      assert d in s ==> Linked(s, d);
    }
  }

  lemma AddChild(s: Stored, p: Cidr, c: Cidr, parent: Record, namespace: string)
    requires IsForest(s) && p in s && FreeNetwork(s[p], c) && c != p && !HasIps(s[p])
    requires parent == TakeChild(s[p], c).(version := parent.version)
    ensures c !in s && IsForest(s[p := parent][c := NewRecord(c, Some(p), namespace)])
  {
    FreeIsUnstored(s, p, c);
    NewRecordOk(c, Some(p), namespace);
    TakeChildOk(s[p], c);
    VersionOk(TakeChild(s[p], c), parent.version);
    TakenAfterTake(s[p], c);
    forall d | d in s && s[d].parent == Some(p) ensures d in Taken(parent) {
      assert Linked(s, d);
    }
    ReplaceRecord(s, p, parent);
    InsertChild(s[p := parent], p, c, NewRecord(c, Some(p), namespace));
  }

  lemma RemoveLeaf(s: Stored, c: Cidr)
    requires IsForest(s) && c in s && Taken(s[c]) == {}
    ensures IsForest(s - {c})
  {
  }

  lemma ReleaseChild(s: Stored, p: Cidr, c: Cidr, parent: Record)
    requires IsForest(s) && p in s && c !in s
    requires parent == FreeChild(s[p], c).(version := parent.version)
    ensures IsForest(s[p := parent])
  {
    FreeChildOk(s[p], c);
    VersionOk(FreeChild(s[p], c), parent.version);
    TakenAfterFree(s[p], c);
    forall d | d in s && s[d].parent == Some(p) ensures d in Taken(parent) {
      assert Linked(s, d);
    }
    ReplaceRecord(s, p, parent);
  }

  lemma ChangeIps(s: Stored, c: Cidr, r: Record)
    requires IsForest(s) && c in s && RecordOk(r)
    requires r == s[c].(ips := r.ips, version := r.version)
    ensures IsForest(s[c := r])
  {
    forall d | d in s && s[d].parent == Some(c) ensures d in Taken(r) {
      assert Linked(s, d);
    }
    ReplaceRecord(s, c, r);
  }
}
