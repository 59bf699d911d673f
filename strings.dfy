/** The java.lang.String operations the scheduler relies on: ordering by
    compareTo, ASCII equalsIgnoreCase, and split on the pipe character. */
module Strings {

  const PIPE: char := '|'

  /** String.compareTo: the difference of the first pair of differing
      characters, or else the difference of the lengths. */
  function CompareTo(a: string, b: string): int
  {
    if a == [] || b == [] then |a| - |b|
    else if a[0] != b[0] then a[0] as int - b[0] as int
    else CompareTo(a[1..], b[1..])
  }

  lemma {:induction false} CompareToAntisymmetric(a: string, b: string)
    ensures CompareTo(b, a) == -CompareTo(a, b)
  {
    if a != [] && b != [] && a[0] == b[0] {
      CompareToAntisymmetric(a[1..], b[1..]);
    }
  }

  lemma {:induction false} CompareToZero(a: string, b: string)
    ensures CompareTo(a, b) == 0 <==> a == b
  {
    if a != [] && b != [] && a[0] == b[0] {
      CompareToZero(a[1..], b[1..]);
      assert a == [a[0]] + a[1..] && b == [b[0]] + b[1..];
    }
  }

  lemma {:induction false} CompareToTransitive(a: string, b: string, c: string)
    requires CompareTo(a, b) < 0 && CompareTo(b, c) < 0
    ensures CompareTo(a, c) < 0
  {
    if a != [] && b != [] && c != [] && a[0] == b[0] && b[0] == c[0] {
      CompareToTransitive(a[1..], b[1..], c[1..]);
    }
  }

  /** "a is not after b", the relation a stable sort by compareTo keeps. */
  predicate NotAfter(a: string, b: string)
  {
    CompareTo(a, b) <= 0
  }

  lemma NotAfterTotal(a: string, b: string)
    ensures NotAfter(a, b) || NotAfter(b, a)
  {
    CompareToAntisymmetric(a, b);
  }

  lemma NotAfterTransitive(a: string, b: string, c: string)
    requires NotAfter(a, b) && NotAfter(b, c)
    ensures NotAfter(a, c)
  {
    CompareToZero(a, b);
    CompareToZero(b, c);
    if CompareTo(a, b) < 0 && CompareTo(b, c) < 0 {
      CompareToTransitive(a, b, c);
    }
  }

  lemma BeforeNotAfter(a: string, b: string, c: string)
    requires CompareTo(a, b) < 0 && NotAfter(b, c)
    ensures CompareTo(a, c) < 0
  {
    CompareToZero(b, c);
    if CompareTo(b, c) < 0 {
      CompareToTransitive(a, b, c);
    }
  }

  /** Character.toUpperCase restricted to the ASCII letters. */
  function ToUpperAscii(c: char): (u: char)
    ensures 'a' <= c <= 'z' ==> 'A' <= u <= 'Z' && u as int == c as int - 32
    ensures !('a' <= c <= 'z') ==> u == c
  {
    if 'a' <= c <= 'z' then (c as int - 32) as char else c
  }

  /** String.equalsIgnoreCase: same length, and each pair of characters
      agrees after upper-casing (ASCII letters only), checked front to back. */
  predicate EqualsIgnoreCase(a: string, b: string)
  {
    |a| == |b| && (a == [] || (ToUpperAscii(a[0]) == ToUpperAscii(b[0]) && EqualsIgnoreCase(a[1..], b[1..])))
  }

  /** The character-by-character reading of equalsIgnoreCase. */
  lemma {:induction false} EqualsIgnoreCaseChars(a: string, b: string)
    ensures EqualsIgnoreCase(a, b) <==>
      |a| == |b| && forall i :: 0 <= i < |a| ==> ToUpperAscii(a[i]) == ToUpperAscii(b[i])
  {
    if a != [] && |a| == |b| {
      EqualsIgnoreCaseChars(a[1..], b[1..]);
      if forall i :: 0 <= i < |a| ==> ToUpperAscii(a[i]) == ToUpperAscii(b[i]) {
        assert forall i :: 0 <= i < |a| - 1 ==> ToUpperAscii(a[1..][i]) == ToUpperAscii(b[1..][i]) by {
          forall i | 0 <= i < |a| - 1
            ensures ToUpperAscii(a[1..][i]) == ToUpperAscii(b[1..][i])
          {
            assert a[1..][i] == a[i + 1] && b[1..][i] == b[i + 1];
          }
        }
      }
      if EqualsIgnoreCase(a, b) {
        forall i | 0 <= i < |a|
          ensures ToUpperAscii(a[i]) == ToUpperAscii(b[i])
        {
          if i > 0 {
            assert a[i] == a[1..][i - 1] && b[i] == b[1..][i - 1];
          }
        }
      }
    }
  }

  lemma {:induction false} EqualsIgnoreCaseSymmetric(a: string, b: string)
    ensures EqualsIgnoreCase(a, b) == EqualsIgnoreCase(b, a)
  {
    if a != [] && b != [] {
      EqualsIgnoreCaseSymmetric(a[1..], b[1..]);
    }
  }

  /** Index of the first pipe in s, or |s| when there is none. */
  function FirstPipe(s: string): (k: nat)
    ensures k <= |s| && PIPE !in s[..k]
    ensures k < |s| ==> s[k] == PIPE
  {
    if s == [] then 0
    else if s[0] == PIPE then 0
    else
      assert s[1..][..FirstPipe(s[1..])] == s[1..1 + FirstPipe(s[1..])];
      1 + FirstPipe(s[1..])
  }

  lemma FirstPipeUnique(s: string, k: nat)
    requires k <= |s| && PIPE !in s[..k]
    requires k < |s| ==> s[k] == PIPE
    ensures FirstPipe(s) == k
  {
  }

  /** Every field between pipes, empty ones included (no pipe: one field). */
  function Fields(s: string): (fields: seq<string>)
    decreases |s|
    ensures |fields| >= 1
    ensures forall i :: 0 <= i < |fields| ==> PIPE !in fields[i]
  {
    var k := FirstPipe(s);
    if k == |s| then [s] else [s[..k]] + Fields(s[k + 1..])
  }

  lemma PipeFreeFields(s: string)
    requires PIPE !in s
    ensures Fields(s) == [s]
  {
    FirstPipeUnique(s, |s|);
  }

  /** Splitting around a pipe splits each side separately. */
  lemma {:induction false} FieldsAround(x: string, y: string)
    ensures Fields(x + [PIPE] + y) == Fields(x) + Fields(y)
    decreases |x|
  {
    var s := x + [PIPE] + y;
    var k := FirstPipe(x);
    if k == |x| {
      assert s[..|x|] == x;
      FirstPipeUnique(s, |x|);
      assert s[|x| + 1..] == y;
    } else {
      assert s[..k] == x[..k];
      FirstPipeUnique(s, k);
      assert s[k + 1..] == x[k + 1..] + [PIPE] + y;
      FieldsAround(x[k + 1..], y);
    }
  }

  lemma {:induction false} FieldsCount(s: string)
    ensures |Fields(s)| == 1 + multiset(s)[PIPE]
    decreases |s|
  {
    var k := FirstPipe(s);
    if k == |s| {
      assert s == s[..k];
    } else {
      assert s == s[..k] + [PIPE] + s[k + 1..];
      assert multiset(s[..k])[PIPE] == 0;
      FieldsCount(s[k + 1..]);
    }
  }

  /** Drops the empty strings at the end of a split result. */
  function StripTrailingEmpty(fields: seq<string>): (r: seq<string>)
    ensures |r| <= |fields| && r == fields[..|r|]
    ensures r != [] ==> r[|r| - 1] != []
    ensures forall i :: |r| <= i < |fields| ==> fields[i] == []
  {
    if fields != [] && fields[|fields| - 1] == [] then StripTrailingEmpty(fields[..|fields| - 1])
    else fields
  }

  /** String.split("\\|"): the fields, without the trailing empty ones;
      a string without any pipe is returned whole. */
  function Split(s: string): (parts: seq<string>)
    ensures forall i :: 0 <= i < |parts| ==> PIPE !in parts[i]
  {
    if PIPE !in s then [s] else StripTrailingEmpty(Fields(s))
  }
}
