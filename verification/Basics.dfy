/** Small shared types, and the byte-wise string order that the cursor cache and the card
    listing both sort by. */
module Basics {

  datatype Option<+T> = None | Some(value: T)

  datatype Result<+T, +E> = Ok(value: T) | Err(error: E)

  // Largest int64: the bound of every revision and of every addressbook id.
  const MAX_INT64: int := 0x7fff_ffff_ffff_ffff

  function Max(a: int, b: int): int { if a < b then b else a }

  function Get<K, V>(m: map<K, V>, k: K): Option<V> {
    if k in m then Some(m[k]) else None
  }

  lemma SameLookupsSameMap<K(!new), V(!new)>(m: map<K, V>, n: map<K, V>)
    requires forall k :: Get(m, k) == Get(n, k)
    ensures m == n
  {
    forall k ensures (k in m <==> k in n) && (k in m && k in n ==> m[k] == n[k]) {
      assert Get(m, k) == Get(n, k);
    }
  }

  /** Lexicographic order of strings, character by character. */
  predicate Less(a: string, b: string) {
    if b == [] then false
    else if a == [] then true
    else if a[0] != b[0] then a[0] < b[0]
    else Less(a[1..], b[1..])
  }

  lemma {:induction false} LessIsIrreflexive(a: string)
    ensures !Less(a, a)
  {
    if a != [] { LessIsIrreflexive(a[1..]); }
  }

  lemma {:induction false} LessIsTransitive(a: string, b: string, c: string)
    requires Less(a, b) && Less(b, c)
    ensures Less(a, c)
  {
    if a != [] && a[0] == b[0] == c[0] { LessIsTransitive(a[1..], b[1..], c[1..]); }
  }

  lemma {:induction false} LessIsTotal(a: string, b: string)
    ensures a == b || Less(a, b) || Less(b, a)
  {
    if a != [] && b != [] && a[0] == b[0] {
      LessIsTotal(a[1..], b[1..]);
      assert a == [a[0]] + a[1..] && b == [b[0]] + b[1..];
    }
  }

  /** a and b agree before i, and there a ends or has the smaller character. */
  ghost predicate SplitsAt(a: string, b: string, i: nat) {
    i <= |a| && i < |b| && a[..i] == b[..i] && (i == |a| || a[i] < b[i])
  }

  lemma SplitAfterFirst(a: string, b: string, i: nat)
    requires SplitsAt(a, b, i) && i > 0
    ensures a != [] && b != [] && a[0] == b[0]
  {
    assert a[..i][0] == b[..i][0];
  }

  /** The order, without recursion. */
  lemma {:induction false} LessIff(a: string, b: string)
    ensures Less(a, b) <==> exists i :: SplitsAt(a, b, i)
  {
    if a == [] || b == [] || a[0] != b[0] {
      if Less(a, b) { assert SplitsAt(a, b, 0); }
      if i: nat :| SplitsAt(a, b, i) {
        if i > 0 { SplitAfterFirst(a, b, i); }
      }
    } else {
      LessIff(a[1..], b[1..]);
      if i: nat :| SplitsAt(a[1..], b[1..], i) {
        assert a[..i + 1] == [a[0]] + a[1..][..i] && b[..i + 1] == [b[0]] + b[1..][..i];
        assert SplitsAt(a, b, i + 1);
      }
      if i: nat :| SplitsAt(a, b, i) {
        assert i > 0;
        assert a[1..][..i - 1] == a[..i][1..] && b[1..][..i - 1] == b[..i][1..];
        assert SplitsAt(a[1..], b[1..], i - 1);
      }
    }
  }

  /** strings.Split(s, sep) for a one-character separator. */
  function SplitOn(s: string, sep: char): (parts: seq<string>)
    ensures parts != []
  {
    if s == [] then [[]]
    else if s[0] == sep then [[]] + SplitOn(s[1..], sep)
    else var rest := SplitOn(s[1..], sep); [[s[0]] + rest[0]] + rest[1..]
  }

  lemma {:induction false} SplitWithoutSeparator(s: string, sep: char)
    requires sep !in s
    ensures SplitOn(s, sep) == [s]
  {
    if s != [] {
      SplitWithoutSeparator(s[1..], sep);
      assert s[0] in s && s == [s[0]] + s[1..];
    }
  }

  lemma {:induction false} SplitAtSeparator(a: string, b: string, sep: char)
    requires sep !in a
    ensures SplitOn(a + [sep] + b, sep) == [a] + SplitOn(b, sep)
  {
    var s := a + [sep] + b;
    if a == [] {
      assert s[1..] == b;
    } else {
      assert s[1..] == a[1..] + [sep] + b && s[0] == a[0] && a[0] in a;
      SplitAtSeparator(a[1..], b, sep);
      assert ([a[1..]] + SplitOn(b, sep))[1..] == SplitOn(b, sep);
      assert [a[0]] + a[1..] == a;
    }
  }

  lemma {:induction false} SplitInTwo(s: string, sep: char)
    ensures |SplitOn(s, sep)| == 1 ==> SplitOn(s, sep)[0] == s && sep !in s
    ensures |SplitOn(s, sep)| == 2 ==> s == SplitOn(s, sep)[0] + [sep] + SplitOn(s, sep)[1]
  {
    if s != [] {
      SplitInTwo(s[1..], sep);
      assert s == [s[0]] + s[1..];
      assert s[0] == sep ==> [] + [sep] + s[1..] == s;
    }
  }
}
