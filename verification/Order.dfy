/** The code-unit order on strings, its extension to keys, and sorted listings without repeats. */
module Order {
  predicate LessString(a: string, b: string) {
    b != [] && (a == [] || a[0] < b[0] || (a[0] == b[0] && LessString(a[1..], b[1..])))
  }

  lemma {:induction false} StringTrichotomy(a: string, b: string)
    ensures LessString(a, b) <==> a != b && !LessString(b, a)
  {
    if a != [] && b != [] && a[0] == b[0] {
      StringTrichotomy(a[1..], b[1..]);
      assert a == [a[0]] + a[1..] && b == [b[0]] + b[1..];
    }
  }

  lemma {:induction false} StringTransitivity(a: string, b: string, c: string)
    requires LessString(a, b) && LessString(b, c)
    ensures LessString(a, c)
  {
    if a != [] && a[0] == b[0] == c[0] {
      StringTransitivity(a[1..], b[1..], c[1..]);
    }
  }

  /** The first code unit in which the texts differ is smaller, or the first text ends before one. */
  ghost predicate IsBeforeText(a: string, b: string) {
    exists n :: DivergeAt(a, b, n)
  }

  predicate DivergeAt(a: string, b: string, n: int) {
    0 <= n <= |a| && n < |b| && a[..n] == b[..n] && (n == |a| || a[n] < b[n])
  }

  lemma {:induction false} LessTextDiverges(a: string, b: string)
    ensures LessString(a, b) <==> IsBeforeText(a, b)
  {
    if a == [] {
      if b != [] {
        assert DivergeAt(a, b, 0);
      }
    } else if b != [] {
      LessTextDiverges(a[1..], b[1..]);
      if a[0] < b[0] {
        assert DivergeAt(a, b, 0);
      } else if a[0] == b[0] && IsBeforeText(a[1..], b[1..]) {
        var n :| DivergeAt(a[1..], b[1..], n);
        LaterDivergence(a, b, n);
      }
      if n :| DivergeAt(a, b, n) {
        if n > 0 {
          EarlierDivergence(a, b, n);
        }
      }
    }
  }

  lemma LaterDivergence(a: string, b: string, n: int)
    requires a != [] && b != [] && a[0] == b[0] && DivergeAt(a[1..], b[1..], n)
    ensures DivergeAt(a, b, n + 1)
  {
    assert a == [a[0]] + a[1..] && b == [b[0]] + b[1..];
    assert a[..n + 1] == [a[0]] + a[1..][..n] && b[..n + 1] == [b[0]] + b[1..][..n];
  }

  lemma EarlierDivergence(a: string, b: string, n: int)
    requires a != [] && b != [] && n > 0 && DivergeAt(a, b, n)
    ensures a[0] == b[0] && DivergeAt(a[1..], b[1..], n - 1)
  {
    assert a[..n][0] == a[0] && b[..n][0] == b[0];
    assert a[1..][..n - 1] == a[..n][1..] && b[1..][..n - 1] == b[..n][1..];
  }

  datatype Key = Key(first: string, second: string, third: string)

  predicate Less(x: Key, y: Key) {
    LessString(x.first, y.first)
    || (x.first == y.first && LessString(x.second, y.second))
    || (x.first == y.first && x.second == y.second && LessString(x.third, y.third))
  }

  lemma Trichotomy(x: Key, y: Key)
    ensures Less(x, y) <==> x != y && !Less(y, x)
  {
    StringTrichotomy(x.first, y.first);
    StringTrichotomy(x.second, y.second);
    StringTrichotomy(x.third, y.third);
  }

  lemma Transitivity(x: Key, y: Key, z: Key)
    requires Less(x, y) && Less(y, z)
    ensures Less(x, z)
  {
    if LessString(x.first, y.first) && LessString(y.first, z.first) {
      StringTransitivity(x.first, y.first, z.first);
    } else if x.first == y.first == z.first {
      if LessString(x.second, y.second) && LessString(y.second, z.second) {
        StringTransitivity(x.second, y.second, z.second);
      } else if x.second == y.second == z.second {
        StringTransitivity(x.third, y.third, z.third);
      }
    }
  }

  /** Strictly ascending by key. */
  ghost predicate Ascending<T>(key: T -> Key, s: seq<T>) {
    forall i, j :: 0 <= i < j < |s| ==> Less(key(s[i]), key(s[j]))
  }

  /** Place x by its key; an element already there under that key is replaced. */
  function Insert<T>(key: T -> Key, x: T, s: seq<T>): seq<T> {
    if s == [] || Less(key(x), key(s[0])) then [x] + s
    else if key(x) == key(s[0]) then [x] + s[1..]
    else [s[0]] + Insert(key, x, s[1..])
  }

  /** Ascending listing with one element per key, the last one given. */
  function Listing<T>(key: T -> Key, s: seq<T>): seq<T> {
    if s == [] then [] else Insert(key, s[|s| - 1], Listing(key, s[..|s| - 1]))
  }

  lemma {:induction false} InsertAscends<T(!new)>(key: T -> Key, x: T, s: seq<T>)
    requires Ascending(key, s)
    ensures Ascending(key, Insert(key, x, s))
    ensures forall y :: y in Insert(key, x, s) <==> y == x || (y in s && key(y) != key(x))
  {
    if s == [] || Less(key(x), key(s[0])) {
      forall j | 0 <= j < |s| ensures Less(key(x), key(s[j])) && key(s[j]) != key(x) {
        if j > 0 {
          Transitivity(key(x), key(s[0]), key(s[j]));
        }
        Trichotomy(key(x), key(s[j]));
      }
    } else {
      Trichotomy(key(x), key(s[0]));
      forall j | 0 < j < |s| ensures key(s[j]) != key(s[0]) {
        Trichotomy(key(s[0]), key(s[j]));
      }
      assert s == [s[0]] + s[1..];
      if key(x) != key(s[0]) {
        InsertAscends(key, x, s[1..]);
        var rest := Insert(key, x, s[1..]);
        forall j | 0 <= j < |rest| ensures Less(key(s[0]), key(rest[j])) {
          assert rest[j] in rest;
          if rest[j] != x {
            var k :| 0 <= k < |s[1..]| && s[1..][k] == rest[j];
          }
        }
      }
    }
  }

  lemma {:induction false} ListingAscends<T(!new)>(key: T -> Key, s: seq<T>)
    ensures Ascending(key, Listing(key, s))
    ensures forall y :: y in Listing(key, s) ==> y in s
  {
    if s != [] {
      ListingAscends(key, s[..|s| - 1]);
      InsertAscends(key, s[|s| - 1], Listing(key, s[..|s| - 1]));
    }
  }

  /** Every key given is listed. */
  lemma {:induction false} ListedUnderKey<T(!new)>(key: T -> Key, s: seq<T>, y: T) returns (z: T)
    requires y in s
    ensures z in Listing(key, s) && key(z) == key(y)
  {
    var init, last := s[..|s| - 1], s[|s| - 1];
    ListingAscends(key, init);
    InsertAscends(key, last, Listing(key, init));
    if key(y) == key(last) {
      z := last;
    } else {
      z := ListedUnderKey(key, init, y);
    }
  }

  /** An ascending listing is fixed by the elements it lists. */
  lemma {:induction false} AscendingIsCanonical<T(!new)>(key: T -> Key, s: seq<T>, t: seq<T>)
    requires Ascending(key, s) && Ascending(key, t)
    requires forall y :: y in s <==> y in t
    ensures s == t
  {
    assert t != [] ==> t[0] in t;
    if s == [] {
      assert t == [];
    } else {
      assert s[0] in t && t != [] && t[0] in s;
      var i :| 0 <= i < |t| && t[i] == s[0];
      var j :| 0 <= j < |s| && s[j] == t[0];
      if i > 0 && j > 0 {
        Trichotomy(key(s[0]), key(t[0]));
      }
      assert s[0] == t[0];
      forall y ensures y in s[1..] <==> y in t[1..] {
        Trichotomy(key(s[0]), key(s[0]));
        assert forall k :: 0 <= k < |s[1..]| ==> s[1..][k] == s[k + 1] != s[0];
        assert forall k :: 0 <= k < |t[1..]| ==> t[1..][k] == t[k + 1] != t[0];
        assert s == [s[0]] + s[1..] && t == [t[0]] + t[1..];
        assert y in s <==> y == s[0] || y in s[1..];
        assert y in t <==> y == t[0] || y in t[1..];
      }
      AscendingIsCanonical(key, s[1..], t[1..]);
    }
  }
}
