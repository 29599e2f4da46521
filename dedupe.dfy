/** Merging the reference and definition locations of a symbol and keeping
    one location per document: the first one seen with each uri. */
module Dedupe {
  import opened Editor

  /** `findIndex(o => o.uri === u)` started at index `k`: the first index at
      or after `k` whose uri is `u`, or -1 when there is none. */
  function FindIndexFrom(s: seq<Location>, u: Uri, k: nat): (r: int)
    requires k <= |s|
    ensures r == -1 || k <= r < |s|
    ensures r >= 0 ==> s[r].uri == u && forall j :: k <= j < r ==> s[j].uri != u
    ensures r == -1 ==> forall j :: k <= j < |s| ==> s[j].uri != u
    decreases |s| - k
  {
    if k == |s| then -1
    else if s[k].uri == u then k
    else FindIndexFrom(s, u, k + 1)
  }

  /** `s.findIndex(o => o.uri === u)`. */
  function FindIndex(s: seq<Location>, u: Uri): (r: int)
    ensures -1 <= r < |s|
    ensures r >= 0 ==> s[r].uri == u && forall j :: 0 <= j < r ==> s[j].uri != u
    ensures r == -1 <==> forall j :: 0 <= j < |s| ==> s[j].uri != u
  {
    FindIndexFrom(s, u, 0)
  }

  /** The uris a sequence of locations mentions. */
  ghost function Uris(s: seq<Location>): set<Uri>
  {
    set j | 0 <= j < |s| :: s[j].uri
  }

  /** No two locations share a uri. */
  ghost predicate DistinctUris(s: seq<Location>)
  {
    forall i, j :: 0 <= i < j < |s| ==> s[i].uri != s[j].uri
  }

  /** The filter `(obj, index, self) => self.findIndex(o => o.uri === obj.uri) === index`
      applied to the elements of `self` from index `k` on. */
  function KeepFirstFrom(self: seq<Location>, k: nat): (r: seq<Location>)
    requires k <= |self|
    ensures |r| <= |self| - k
    decreases |self| - k
  {
    if k == |self| then []
    else if FindIndex(self, self[k].uri) == k then [self[k]] + KeepFirstFrom(self, k + 1)
    else KeepFirstFrom(self, k + 1)
  }

  /** Every location of `r` is the first location of its uri in `self`, and
      that first location lies at or after `k`. */
  ghost predicate AllFirstFrom(self: seq<Location>, r: seq<Location>, k: nat)
  {
    forall j :: 0 <= j < |r| ==>
      k <= FindIndex(self, r[j].uri) && r[j] == self[FindIndex(self, r[j].uri)]
  }

  /** The locations of `r` come in the order of their uris' first appearance in `self`. */
  ghost predicate InFirstSeenOrder(self: seq<Location>, r: seq<Location>)
  {
    forall i, j :: 0 <= i < j < |r| ==> FindIndex(self, r[i].uri) < FindIndex(self, r[j].uri)
  }

  /** Every location the filter keeps from `k` on is the first location of
      its uri, and that first location lies at or after `k`. */
  lemma {:induction false} KeptAreFirst(self: seq<Location>, k: nat)
    requires k <= |self|
    ensures AllFirstFrom(self, KeepFirstFrom(self, k), k)
    decreases |self| - k
  {
    if k < |self| {
      KeptAreFirst(self, k + 1);
      var rest := KeepFirstFrom(self, k + 1);
      if FindIndex(self, self[k].uri) == k {
        var r := [self[k]] + rest;
        forall j | 0 <= j < |r|
          ensures k <= FindIndex(self, r[j].uri) && r[j] == self[FindIndex(self, r[j].uri)]
        {
          if j > 0 { assert r[j] == rest[j - 1]; }
        }
      }
    }
  }

  /** The filter keeps locations in the order of their uris' first appearance. */
  lemma {:induction false} KeptInOrder(self: seq<Location>, k: nat)
    requires k <= |self|
    ensures InFirstSeenOrder(self, KeepFirstFrom(self, k))
    decreases |self| - k
  {
    if k < |self| {
      KeptInOrder(self, k + 1);
      KeptAreFirst(self, k + 1);
      var rest := KeepFirstFrom(self, k + 1);
      if FindIndex(self, self[k].uri) == k {
        var r := [self[k]] + rest;
        forall i, j | 0 <= i < j < |r|
          ensures FindIndex(self, r[i].uri) < FindIndex(self, r[j].uri)
        {
          assert r[j] == rest[j - 1];
          if i > 0 { assert r[i] == rest[i - 1]; }
        }
      }
    }
  }

  /** Every first appearance of a uri at or after `k` is kept. */
  lemma {:induction false} FirstsAreKept(self: seq<Location>, k: nat)
    requires k <= |self|
    ensures forall i :: k <= i < |self| && FindIndex(self, self[i].uri) == i ==>
      self[i] in KeepFirstFrom(self, k)
    decreases |self| - k
  {
    if k < |self| {
      FirstsAreKept(self, k + 1);
    }
  }

  /** The deduplication filter. The result holds, for each uri of `s`,
      exactly one location: the first one in `s` with that uri; and it lists
      them in the order in which their uris first appear in `s`, so it is a
      subsequence of `s`. */
  function Dedupe(s: seq<Location>): (r: seq<Location>)
    ensures DistinctUris(r)
    ensures Uris(r) == Uris(s)
    ensures forall j :: 0 <= j < |r| ==>
      0 <= FindIndex(s, r[j].uri) && r[j] == s[FindIndex(s, r[j].uri)]
    ensures forall i, j :: 0 <= i < j < |r| ==>
      FindIndex(s, r[i].uri) < FindIndex(s, r[j].uri)
  {
    var r := KeepFirstFrom(s, 0);
    KeptAreFirst(s, 0);
    KeptInOrder(s, 0);
    FirstsAreKept(s, 0);
    forall u | u in Uris(s) ensures u in Uris(r) {
      var i := FindIndex(s, u);
      assert s[i] in r;
    }
    r
  }

  /** References first, then definitions, then the deduplication filter:
      one location for every document that a reference or a definition
      mentions, and no document twice. */
  function MergeLocations(refs: seq<Location>, defs: seq<Location>): (r: seq<Location>)
    ensures DistinctUris(r)
    ensures Uris(r) == Uris(refs) + Uris(defs)
  {
    var s := refs + defs;
    forall u | u in Uris(s) ensures u in Uris(refs) + Uris(defs) {
      var j :| 0 <= j < |s| && s[j].uri == u;
      if j < |refs| { assert s[j] == refs[j]; } else { assert s[j] == defs[j - |refs|]; }
    }
    forall u | u in Uris(refs) + Uris(defs) ensures u in Uris(s) {
      if u in Uris(refs) {
        var j :| 0 <= j < |refs| && refs[j].uri == u;
        assert s[j] == refs[j];
      } else {
        var j :| 0 <= j < |defs| && defs[j].uri == u;
        assert s[|refs| + j] == defs[j];
      }
    }
    Dedupe(s)
  }

  /** In a sequence with pairwise distinct uris every location is the first of its uri. */
  lemma DistinctIsFirst(s: seq<Location>, i: nat)
    requires DistinctUris(s)
    requires i < |s|
    ensures FindIndex(s, s[i].uri) == i
  {
  }

  /** A sequence in which every location from `k` on is the first of its
      uri is kept whole from `k` on. */
  lemma {:induction false} KeepFirstFromAllFirst(s: seq<Location>, k: nat)
    requires k <= |s|
    requires forall i :: k <= i < |s| ==> FindIndex(s, s[i].uri) == i
    ensures KeepFirstFrom(s, k) == s[k..]
    decreases |s| - k
  {
    if k < |s| {
      KeepFirstFromAllFirst(s, k + 1);
      assert s[k..] == [s[k]] + s[k + 1..];
    }
  }

  /** Locations with pairwise distinct uris pass the filter unchanged. */
  lemma DedupeDistinct(s: seq<Location>)
    requires DistinctUris(s)
    ensures Dedupe(s) == s
  {
    forall i | 0 <= i < |s| ensures FindIndex(s, s[i].uri) == i {
      DistinctIsFirst(s, i);
    }
    KeepFirstFromAllFirst(s, 0);
  }

  /** Applying the filter twice gives what applying it once gives. */
  lemma DedupeIdempotent(s: seq<Location>)
    ensures Dedupe(Dedupe(s)) == Dedupe(s)
  {
    DedupeDistinct(Dedupe(s));
  }

  /** A sequence with pairwise distinct uris has as many elements as uris. */
  lemma {:induction false} DistinctUrisCount(s: seq<Location>)
    requires DistinctUris(s)
    ensures |Uris(s)| == |s|
  {
    if s != [] {
      var t := s[1..];
      assert DistinctUris(t) by {
        forall i, j | 0 <= i < j < |t| ensures t[i].uri != t[j].uri {
          assert t[i] == s[i + 1] && t[j] == s[j + 1];
        }
      }
      DistinctUrisCount(t);
      assert Uris(s) == {s[0].uri} + Uris(t) by {
        forall u | u in Uris(s) ensures u in {s[0].uri} + Uris(t) {
          var j :| 0 <= j < |s| && s[j].uri == u;
          if j > 0 { assert t[j - 1] == s[j]; }
        }
        forall u | u in Uris(t) ensures u in Uris(s) {
          var j :| 0 <= j < |t| && t[j].uri == u;
          assert s[j + 1] == t[j];
        }
      }
      assert s[0].uri !in Uris(t) by {
        forall j | 0 <= j < |t| ensures t[j].uri != s[0].uri {
          assert t[j] == s[j + 1];
        }
      }
    }
  }

  /** The filter keeps one location per distinct uri: its length is the
      number of distinct uris, so it is empty exactly when its input is. */
  lemma DedupeLength(s: seq<Location>)
    ensures |Dedupe(s)| == |Uris(s)|
    ensures Dedupe(s) == [] <==> s == []
  {
    DistinctUrisCount(Dedupe(s));
    if s != [] {
      assert s[0].uri in Uris(s);
    }
  }

  /** The first index of a uri in `a + b` is its first index in `a` when `a`
      has it, and otherwise `|a|` plus its first index in `b`. */
  lemma FindIndexAppend(a: seq<Location>, b: seq<Location>, u: Uri)
    ensures FindIndex(a, u) >= 0 ==> FindIndex(a + b, u) == FindIndex(a, u)
    ensures FindIndex(a, u) == -1 && FindIndex(b, u) >= 0 ==>
      FindIndex(a + b, u) == |a| + FindIndex(b, u)
    ensures FindIndex(a, u) == -1 && FindIndex(b, u) == -1 ==> FindIndex(a + b, u) == -1
  {
    var ab := a + b;
    forall j | 0 <= j < |a| ensures ab[j] == a[j] {}
    forall j | 0 <= j < |b| ensures ab[|a| + j] == b[j] {}
  }

  /** References take precedence: for a uri that some reference has, the
      merged result keeps the first reference with that uri; a uri only the
      definitions have is represented by the first definition with it. */
  lemma MergeKeepsFirstReference(refs: seq<Location>, defs: seq<Location>)
    ensures forall x :: x in MergeLocations(refs, defs) && FindIndex(refs, x.uri) >= 0 ==>
      x == refs[FindIndex(refs, x.uri)]
    ensures forall x :: x in MergeLocations(refs, defs) && FindIndex(refs, x.uri) == -1 ==>
      0 <= FindIndex(defs, x.uri) && x == defs[FindIndex(defs, x.uri)]
  {
    var s := refs + defs;
    var r := MergeLocations(refs, defs);
    forall x | x in r
      ensures FindIndex(refs, x.uri) >= 0 ==> x == refs[FindIndex(refs, x.uri)]
      ensures FindIndex(refs, x.uri) == -1 ==>
        0 <= FindIndex(defs, x.uri) && x == defs[FindIndex(defs, x.uri)]
    {
      var j :| 0 <= j < |r| && r[j] == x;
      var f := FindIndex(s, x.uri);
      assert 0 <= f && x == s[f];
      FindIndexAppend(refs, defs, x.uri);
    }
  }
}
