/** Byte strings as the server sees them: the order std::map sorts its keys by,
    ASCII upper-casing, and a few searches. A byte is a `char` below 256. */
module Text {

  const NUL: char := '\0'

  datatype Option<+T> = None | Some(value: T)

  /** operator< of std::string: lexicographic by byte. */
  predicate Less(a: string, b: string) {
    b != "" && (a == "" || a[0] < b[0] || (a[0] == b[0] && Less(a[1..], b[1..])))
  }

  lemma {:induction false} LessIsTotal(a: string, b: string)
    ensures Less(a, b) || Less(b, a) || a == b
    ensures !(Less(a, b) && Less(b, a))
    ensures a == b ==> !Less(a, b)
  {
    if a != "" && b != "" {
      LessIsTotal(a[1..], b[1..]);
      if a[0] == b[0] {
        assert a == [a[0]] + a[1..] && b == [b[0]] + b[1..];
      }
    }
  }

  /** What it is: a is a proper prefix of b, or smaller where they first differ. */
  lemma {:induction false} LessIsLexicographic(a: string, b: string)
    ensures Less(a, b) <==> a < b || SmallerAtFirst(a, b)
  {
    if a != "" && b != "" && a[0] == b[0] {
      LessIsLexicographic(a[1..], b[1..]);
      PrefixesShift(a, b);
    } else if a != "" && b != "" {
      assert DiffersAt(a, b, 0);
      assert forall i :: DiffersAt(a, b, i) && i > 0 ==> a[..i][0] == b[..i][0];
    }
  }

  predicate DiffersAt(a: string, b: string, i: int) {
    0 <= i < |a| && i < |b| && a[..i] == b[..i] && a[i] != b[i]
  }

  ghost predicate SmallerAtFirst(a: string, b: string) {
    exists i :: DiffersAt(a, b, i) && a[i] < b[i]
  }

  lemma PrefixesShift(a: string, b: string)
    requires a != "" && b != "" && a[0] == b[0]
    ensures a < b <==> a[1..] < b[1..]
    ensures SmallerAtFirst(a, b) <==> SmallerAtFirst(a[1..], b[1..])
  {
    var x, y := a[1..], b[1..];
    assert a == [a[0]] + x && b == [b[0]] + y;
    if |a| <= |b| {
      assert b[..|a|] == [b[0]] + y[..|x|];
    }
    forall i ensures DiffersAt(x, y, i) ==> DiffersAt(a, b, i + 1) {
      if DiffersAt(x, y, i) {
        assert a[..i + 1] == [a[0]] + x[..i] && b[..i + 1] == [b[0]] + y[..i];
      }
    }
    forall i ensures DiffersAt(a, b, i) ==> DiffersAt(x, y, i - 1) {
      if DiffersAt(a, b, i) {
        assert a[..i][1..] == x[..i - 1] && b[..i][1..] == y[..i - 1];
      }
    }
    if SmallerAtFirst(x, y) {
      var i :| DiffersAt(x, y, i) && x[i] < y[i];
      assert DiffersAt(a, b, i + 1);
    }
    if SmallerAtFirst(a, b) {
      var i :| DiffersAt(a, b, i) && a[i] < b[i];
      assert DiffersAt(x, y, i - 1);
    }
  }

  lemma {:induction false} LessIsTransitive(a: string, b: string, c: string)
    requires Less(a, b) && Less(b, c)
    ensures Less(a, c)
  {
    if a != "" && a[0] == b[0] && b[0] == c[0] {
      LessIsTransitive(a[1..], b[1..], c[1..]);
    }
  }

  predicate IsLeast(m: string, keys: set<string>) {
    m in keys && forall x :: x in keys && x != m ==> Less(m, x)
  }

  lemma {:induction false} LeastExists(keys: set<string>)
    requires keys != {}
    ensures exists m :: IsLeast(m, keys)
  {
    var x :| x in keys;
    var rest := keys - {x};
    if rest == {} {
      assert keys == {x};
      assert IsLeast(x, keys);
    } else {
      LeastExists(rest);
      var m :| IsLeast(m, rest);
      LessIsTotal(x, m);
      if Less(m, x) {
        assert IsLeast(m, keys);
      } else {
        forall y | y in keys && y != x ensures Less(x, y) {
          if y != m {
            LessIsTransitive(x, m, y);
          }
        }
        assert IsLeast(x, keys);
      }
    }
  }

  lemma LeastIsUnique(m: string, n: string, keys: set<string>)
    requires IsLeast(m, keys) && IsLeast(n, keys)
    ensures m == n
  {
    LessIsTotal(m, n);
  }

  /** The key begin() of a non-empty std::map points at. */
  function Least(keys: set<string>): (m: string)
    requires keys != {}
    ensures IsLeast(m, keys)
  {
    LeastExists(keys);
    assert forall m, n :: IsLeast(m, keys) && IsLeast(n, keys) ==> m == n by {
      forall m, n | IsLeast(m, keys) && IsLeast(n, keys) ensures m == n {
        LeastIsUnique(m, n, keys);
      }
    }
    var m :| IsLeast(m, keys);
    m
  }

  predicate Ascending(ks: seq<string>) {
    forall i, j :: 0 <= i < j < |ks| ==> Less(ks[i], ks[j])
  }

  lemma LeastFirst(m: string, rest: seq<string>, keys: set<string>)
    requires IsLeast(m, keys) && Ascending(rest)
    requires forall k :: k in rest <==> k in keys - {m}
    ensures Ascending([m] + rest)
    ensures forall k :: k in [m] + rest <==> k in keys
  {
    forall j | 0 <= j < |rest| ensures Less(m, rest[j]) {
      assert rest[j] in rest;
    }
  }

  /** The keys of a std::map in the order its iterators visit them. */
  function Sorted(keys: set<string>): (ks: seq<string>)
    ensures |ks| == |keys|
    ensures forall k :: k in ks <==> k in keys
    decreases |keys|
  {
    if keys == {} then []
    else
      var m := Least(keys);
      [m] + Sorted(keys - {m})
  }

  lemma {:induction false} SortedAscends(keys: set<string>)
    ensures Ascending(Sorted(keys))
    decreases |keys|
  {
    if keys != {} {
      var m := Least(keys);
      SortedAscends(keys - {m});
      LeastFirst(m, Sorted(keys - {m}), keys);
    }
  }

  /** std::toupper in the C locale. */
  function UpperChar(c: char): char {
    if 'a' <= c <= 'z' then c - 'a' + 'A' else c
  }

  /** It changes the lower-case letters and nothing else. */
  lemma UpperIsCapital(c: char, i: nat)
    requires i < 26
    ensures UpperChar("abcdefghijklmnopqrstuvwxyz"[i]) == "ABCDEFGHIJKLMNOPQRSTUVWXYZ"[i]
    ensures c !in "abcdefghijklmnopqrstuvwxyz" ==> UpperChar(c) == c
  {
    if 'a' <= c <= 'z' {
      assert "abcdefghijklmnopqrstuvwxyz"[c as int - 'a' as int] == c;
    }
  }

  function ToUpper(s: string): string {
    seq(|s|, i requires 0 <= i < |s| => UpperChar(s[i]))
  }

  /** Index of the first d in s, or |s| when there is none. */
  function IndexOf(s: string, d: char): (i: nat)
    ensures i <= |s|
    ensures forall j :: 0 <= j < i ==> s[j] != d
    ensures i < |s| ==> s[i] == d
  {
    if s == "" || s[0] == d then 0
    else
      var i := IndexOf(s[1..], d);
      assert forall j :: 1 <= j < i + 1 ==> s[j] == s[1..][j - 1];
      i + 1
  }
}
