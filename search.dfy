/** Go's byte-wise string order and sort.SearchStrings, which validate.go uses
    to look a name up in the sorted blacklist. */
module Search {
  import opened Chars

  /** Go's `a < b` on strings: lexicographic on bytes, a proper prefix first. */
  predicate Less(a: Bytes, b: Bytes) {
    if a == [] then b != []
    else b != [] && (a[0] < b[0] || (a[0] == b[0] && Less(a[1..], b[1..])))
  }

  lemma {:induction false} LessIrreflexive(a: Bytes)
    ensures !Less(a, a)
  {
    if a != [] {
      LessIrreflexive(a[1..]);
    }
  }

  lemma {:induction false} LessTransitive(a: Bytes, b: Bytes, c: Bytes)
    requires Less(a, b) && Less(b, c)
    ensures Less(a, c)
  {
    if a != [] && a[0] == b[0] && b[0] == c[0] {
      LessTransitive(a[1..], b[1..], c[1..]);
    }
  }

  lemma {:induction false} LessTotal(a: Bytes, b: Bytes)
    ensures a == b || Less(a, b) || Less(b, a)
  {
    if a != [] && b != [] && a[0] == b[0] {
      LessTotal(a[1..], b[1..]);
      if a[1..] == b[1..] {
        assert a == [a[0]] + a[1..] && b == [b[0]] + b[1..];
      }
    }
  }

  /** Ascending order, repeats allowed: what sort.SearchStrings demands. */
  predicate Sorted(list: seq<Bytes>) {
    forall i, j :: 0 <= i < j < |list| ==> !Less(list[j], list[i])
  }

  /** sort.Search's loop over [lo, hi), as recursion: the first position whose
      entry is not below x. */
  function SearchRange(list: seq<Bytes>, x: Bytes, lo: nat, hi: nat): (i: nat)
    requires Sorted(list) && lo <= hi <= |list|
    requires forall j :: 0 <= j < lo ==> Less(list[j], x)
    requires forall j :: hi <= j < |list| ==> !Less(list[j], x)
    ensures lo <= i <= hi
    ensures forall j :: 0 <= j < i ==> Less(list[j], x)
    ensures forall j :: i <= j < |list| ==> !Less(list[j], x)
    decreases hi - lo
  {
    if lo == hi then lo
    else
      var h := (lo + hi) / 2;
      if Less(list[h], x) then
        BelowPivot(list, x, h);
        SearchRange(list, x, h + 1, hi)
      else
        AbovePivot(list, x, h);
        SearchRange(list, x, lo, h)
  }

  /** Everything up to an entry below x is below x. */
  lemma BelowPivot(list: seq<Bytes>, x: Bytes, h: nat)
    requires Sorted(list) && h < |list| && Less(list[h], x)
    ensures forall j :: 0 <= j <= h ==> Less(list[j], x)
  {
    forall j | 0 <= j <= h
      ensures Less(list[j], x)
    {
      if j < h {
        LessTotal(list[j], list[h]);
        if list[j] != list[h] {
          LessTransitive(list[j], list[h], x);
        }
      }
    }
  }

  /** Everything from an entry not below x onwards is not below x. */
  lemma AbovePivot(list: seq<Bytes>, x: Bytes, h: nat)
    requires Sorted(list) && h < |list| && !Less(list[h], x)
    ensures forall j :: h <= j < |list| ==> !Less(list[j], x)
  {
    forall j | h <= j < |list|
      ensures !Less(list[j], x)
    {
      if j > h && Less(list[j], x) {
        LessTotal(list[h], list[j]);
        if list[h] != list[j] {
          LessTransitive(list[h], list[j], x);
        }
      }
    }
  }

  /** sort.SearchStrings: the index where x is or would be inserted. */
  function SearchStrings(list: seq<Bytes>, x: Bytes): (i: nat)
    requires Sorted(list)
    ensures i <= |list|
    ensures forall j :: 0 <= j < i ==> Less(list[j], x)
    ensures forall j :: i <= j < |list| ==> !Less(list[j], x)
  {
    SearchRange(list, x, 0, |list|)
  }

  /** Looking x up by search and comparing the entry found is plain membership. */
  lemma SearchFindsMembers(list: seq<Bytes>, x: Bytes)
    requires Sorted(list)
    ensures (SearchStrings(list, x) < |list| && list[SearchStrings(list, x)] == x) <==> x in list
  {
    var i := SearchStrings(list, x);
    if x in list {
      var j :| 0 <= j < |list| && list[j] == x;
      if j < i {
        LessIrreflexive(x);
      }
      assert i <= j;
      LessTotal(list[i], x);
    }
  }
}
