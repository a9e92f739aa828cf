/**
 JavaScript strings: sequences of UTF-16 code units, compared code unit by code
 unit. Model names, row ids and JSON object keys are all ordered this way.
 */
module JsText {
  type CodeUnit = u: int | 0 <= u < 0x10000

  type Text = seq<CodeUnit>

  /** The two halves of a surrogate pair. */
  predicate IsHigh(u: int) { 0xD800 <= u < 0xDC00 }

  predicate IsLow(u: int) { 0xDC00 <= u < 0xE000 }

  /** The operator `<` on strings. */
  predicate Less(a: Text, b: Text) {
    if b == [] then false
    else if a == [] then true
    else a[0] < b[0] || (a[0] == b[0] && Less(a[1..], b[1..]))
  }

  /** `a` comes first exactly if it is a proper prefix of `b` or smaller at the first unit in which they differ. */
  lemma {:induction false} LessExactlyWhen(a: Text, b: Text)
    ensures Less(a, b) <==> exists i :: 0 <= i <= |a| && i < |b| && a[..i] == b[..i] && (i == |a| || a[i] < b[i])
  {
    if a == [] && b != [] {
      assert a[..0] == b[..0];
    } else if a != [] && b != [] {
      if a[0] == b[0] {
        LessExactlyWhen(a[1..], b[1..]);
        if Less(a, b) {
          var i :| 0 <= i <= |a[1..]| && i < |b[1..]| && a[1..][..i] == b[1..][..i] && (i == |a[1..]| || a[1..][i] < b[1..][i]);
          assert a[..i + 1] == [a[0]] + a[1..][..i] && b[..i + 1] == [b[0]] + b[1..][..i];
        }
      } else if a[0] < b[0] {
        assert a[..0] == b[..0];
      }
      if i :| 0 <= i <= |a| && i < |b| && a[..i] == b[..i] && (i == |a| || a[i] < b[i]) {
        if i > 0 {
          assert a[..i][0] == b[..i][0];
          assert a[1..][..i - 1] == a[..i][1..] && b[1..][..i - 1] == b[..i][1..];
        }
      }
    }
  }

  lemma {:induction false} LessIrreflexive(a: Text)
    ensures !Less(a, a)
  {
    if a != [] {
      LessIrreflexive(a[1..]);
    }
  }

  lemma {:induction false} LessTransitive(a: Text, b: Text, c: Text)
    requires Less(a, b) && Less(b, c)
    ensures Less(a, c)
  {
    if a != [] && a[0] == b[0] == c[0] {
      LessTransitive(a[1..], b[1..], c[1..]);
    }
  }

  lemma {:induction false} LessTotal(a: Text, b: Text)
    ensures a == b || Less(a, b) || Less(b, a)
  {
    if a != [] && b != [] && a[0] == b[0] {
      LessTotal(a[1..], b[1..]);
      assert a == [a[0]] + a[1..] && b == [b[0]] + b[1..];
    }
  }

  ghost predicate Ascending(s: seq<Text>) {
    forall i, j :: 0 <= i < j < |s| ==> Less(s[i], s[j])
  }

  ghost predicate NoDuplicates<T>(s: seq<T>) {
    forall i, j :: 0 <= i < j < |s| ==> s[i] != s[j]
  }

  /** A set of texts has one ascending enumeration. */
  lemma {:induction false} AscendingUnique(a: seq<Text>, b: seq<Text>)
    requires Ascending(a) && Ascending(b)
    requires forall t :: t in a <==> t in b
    ensures a == b
  {
    assert b != [] ==> b[0] in a;
    if a != [] {
      assert a[0] in b;
      var j :| 0 <= j < |b| && b[j] == a[0];
      var i :| 0 <= i < |a| && a[i] == b[0];
      if a[0] != b[0] {
        assert Less(a[0], a[i]) && Less(b[0], b[j]);
        LessTransitive(a[0], b[0], a[0]);
        LessIrreflexive(a[0]);
      }
      forall t
        ensures t in a[1..] <==> t in b[1..]
      {
        TailMembers(a, t);
        TailMembers(b, t);
      }
      AscendingUnique(a[1..], b[1..]);
    }
  }

  lemma TailMembers(a: seq<Text>, t: Text)
    requires Ascending(a) && a != []
    ensures t in a[1..] <==> t in a && t != a[0]
  {
    if t in a[1..] {
      var i :| 0 <= i < |a[1..]| && a[1..][i] == t;
      assert a[i + 1] == t && Less(a[0], a[i + 1]);
      LessIrreflexive(a[0]);
    }
  }

  lemma AscendingHasNoDuplicates(s: seq<Text>)
    requires Ascending(s)
    ensures NoDuplicates(s)
  {
    forall i, j | 0 <= i < j < |s|
      ensures s[i] != s[j]
    {
      LessIrreflexive(s[i]);
    }
  }

  ghost predicate DistinctKeys<T>(key: T -> Text, xs: seq<T>) {
    forall i, j :: 0 <= i < j < |xs| ==> key(xs[i]) != key(xs[j])
  }

  ghost predicate AscendingBy<T>(key: T -> Text, xs: seq<T>) {
    forall i, j :: 0 <= i < j < |xs| ==> Less(key(xs[i]), key(xs[j]))
  }

  /** `Array.prototype.sort` on elements whose keys are all different. */
  function SortBy<T(!new)>(key: T -> Text, xs: seq<T>): (sorted: seq<T>)
    requires DistinctKeys(key, xs)
    ensures |sorted| == |xs|
    ensures AscendingBy(key, sorted)
    ensures forall x :: x in sorted <==> x in xs
  {
    if xs == [] then []
    else InsertBy(key, xs[0], SortBy(key, xs[1..]))
  }

  function InsertBy<T(!new)>(key: T -> Text, x: T, sorted: seq<T>): (r: seq<T>)
    requires AscendingBy(key, sorted)
    requires forall y :: y in sorted ==> key(y) != key(x)
    ensures |r| == |sorted| + 1
    ensures AscendingBy(key, r)
    ensures forall y :: y in r <==> y == x || y in sorted
  {
    if sorted == [] then [x]
    else if Less(key(x), key(sorted[0])) then
      assert AscendingBy(key, [x] + sorted) by { InsertFront(key, x, sorted); }
      [x] + sorted
    else
      var rest := InsertBy(key, x, sorted[1..]);
      assert AscendingBy(key, [sorted[0]] + rest) by {
        LessTotal(key(x), key(sorted[0]));
        assert forall y :: y in rest ==> Less(key(sorted[0]), key(y));
      }
      [sorted[0]] + rest
  }

  lemma InsertFront<T>(key: T -> Text, x: T, sorted: seq<T>)
    requires AscendingBy(key, sorted) && sorted != []
    requires Less(key(x), key(sorted[0]))
    ensures AscendingBy(key, [x] + sorted)
  {
    forall i | 0 < i < |sorted|
      ensures Less(key(x), key(sorted[i]))
    {
      LessTransitive(key(x), key(sorted[0]), key(sorted[i]));
    }
  }

  function Itself(t: Text): Text { t }

  /** `.sort()` on distinct strings. */
  function Sort(xs: seq<Text>): (sorted: seq<Text>)
    requires NoDuplicates(xs)
    ensures |sorted| == |xs|
    ensures Ascending(sorted)
    ensures forall x :: x in sorted <==> x in xs
  {
    SortBy(Itself, xs)
  }

  /** The elements of a set in ascending order. */
  ghost function Enumerate(s: set<Text>): (r: seq<Text>)
    ensures Ascending(r) && NoDuplicates(r)
    ensures forall t :: t in r <==> t in s
    ensures forall i :: 0 <= i < |r| ==> r[i] in s
  {
    ListingExists(s);
    var xs: seq<Text> :| NoDuplicates(xs) && forall t :: t in xs <==> t in s;
    AscendingHasNoDuplicates(Sort(xs));
    assert forall i :: 0 <= i < |Sort(xs)| ==> Sort(xs)[i] in Sort(xs);
    Sort(xs)
  }

  lemma ListingExists(s: set<Text>)
    ensures exists xs: seq<Text> :: NoDuplicates(xs) && forall t :: t in xs <==> t in s
  {
    if s == {} {
      assert NoDuplicates<Text>([]) && forall t: Text :: t in [] <==> t in s;
    } else {
      var m :| m in s;
      ListingExists(s - {m});
      var rest: seq<Text> :| NoDuplicates(rest) && forall t :: t in rest <==> t in s - {m};
      assert NoDuplicates([m] + rest) && forall t :: t in [m] + rest <==> t in s;
    }
  }
}
