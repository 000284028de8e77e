/**
 * String helpers of the contact form: String.prototype.trim, with the set of
 * whitespace characters left as a parameter `isSpace`, and splitting a string
 * at the first occurrence of a separator character.
 */
module Text {
  import opened Wrappers

  /** `s` without its leading whitespace. */
  function TrimStart(s: string, isSpace: char -> bool): (r: string)
  {
    if s != [] && isSpace(s[0]) then TrimStart(s[1..], isSpace) else s
  }

  /** `s` without its trailing whitespace. */
  function TrimEnd(s: string, isSpace: char -> bool): (r: string)
  {
    if s != [] && isSpace(s[|s| - 1]) then TrimEnd(s[..|s| - 1], isSpace) else s
  }

  /** TrimStart drops a whitespace prefix `s[..i]` and keeps the rest, which starts with a non-space. */
  lemma {:induction false} TrimStartShape(s: string, isSpace: char -> bool) returns (i: nat)
    ensures i <= |s| && TrimStart(s, isSpace) == s[i..]
    ensures i < |s| ==> !isSpace(s[i])
    ensures forall k :: 0 <= k < i ==> isSpace(s[k])
  {
    if s != [] && isSpace(s[0]) {
      var t := s[1..];
      var i' := TrimStartShape(t, isSpace);
      i := i' + 1;
      assert t[i'..] == s[i..];
      forall k | 0 <= k < i
        ensures isSpace(s[k])
      {
        if k > 0 {
          assert s[k] == t[k - 1];
        }
      }
    } else {
      i := 0;
    }
  }

  /** TrimEnd drops a whitespace suffix `s[j..]` and keeps the rest, which ends with a non-space. */
  lemma {:induction false} TrimEndShape(s: string, isSpace: char -> bool) returns (j: nat)
    ensures j <= |s| && TrimEnd(s, isSpace) == s[..j]
    ensures 0 < j ==> !isSpace(s[j - 1])
    ensures forall k :: j <= k < |s| ==> isSpace(s[k])
  {
    if s != [] && isSpace(s[|s| - 1]) {
      var t := s[..|s| - 1];
      j := TrimEndShape(t, isSpace);
      assert t[..j] == s[..j];
      forall k | j <= k < |s|
        ensures isSpace(s[k])
      {
        if k < |t| {
          assert s[k] == t[k];
        }
      }
    } else {
      j := |s|;
    }
  }

  /** `s` without leading and trailing whitespace, as String.prototype.trim. */
  function Trim(s: string, isSpace: char -> bool): (r: string)
  {
    TrimEnd(TrimStart(s, isSpace), isSpace)
  }

  /** `s` neither begins nor ends with whitespace. */
  predicate IsTrimmed(s: string, isSpace: char -> bool)
  {
    s == [] || (!isSpace(s[0]) && !isSpace(s[|s| - 1]))
  }

  /**
   * Trimming removes only whitespace, and only at the two ends: the result is
   * the slice `s[i..j]` and everything outside it is whitespace.
   */
  lemma {:induction false} TrimIsInnerSlice(s: string, isSpace: char -> bool) returns (i: nat, j: nat)
    ensures i <= j <= |s|
    ensures Trim(s, isSpace) == s[i..j]
    ensures forall k :: 0 <= k < i ==> isSpace(s[k])
    ensures forall k :: j <= k < |s| ==> isSpace(s[k])
  {
    i := TrimStartShape(s, isSpace);
    var t := s[i..];
    var n := TrimEndShape(t, isSpace);
    j := i + n;
    assert t[..n] == s[i..j];
    forall k | j <= k < |s|
      ensures isSpace(s[k])
    {
      assert s[k] == t[k - i];
    }
  }

  /** The trim neither begins nor ends with whitespace. */
  lemma TrimIsTrimmed(s: string, isSpace: char -> bool)
    ensures IsTrimmed(Trim(s, isSpace), isSpace)
  {
    var i := TrimStartShape(s, isSpace);
    var t := s[i..];
    var n := TrimEndShape(t, isSpace);
    if n > 0 {
      assert Trim(s, isSpace)[0] == t[0];
    }
  }

  /** A string that neither begins nor ends with whitespace is its own trim. */
  lemma {:induction false} TrimOfTrimmed(s: string, isSpace: char -> bool)
    requires IsTrimmed(s, isSpace)
    ensures Trim(s, isSpace) == s
  {
  }

  /** Trimming twice is trimming once. */
  lemma TrimIdempotent(s: string, isSpace: char -> bool)
    ensures Trim(Trim(s, isSpace), isSpace) == Trim(s, isSpace)
  {
    TrimIsTrimmed(s, isSpace);
    TrimOfTrimmed(Trim(s, isSpace), isSpace);
  }

  /** The trim is empty exactly when every character is whitespace. */
  lemma TrimEmptyIff(s: string, isSpace: char -> bool)
    ensures Trim(s, isSpace) == [] <==> forall k :: 0 <= k < |s| ==> isSpace(s[k])
  {
    var i, j := TrimIsInnerSlice(s, isSpace);
    TrimIsTrimmed(s, isSpace);
    if Trim(s, isSpace) != [] {
      assert Trim(s, isSpace)[0] == s[i];
    }
  }

  /**
   * Splits `s` at the first occurrence of `sep` into the part before it and
   * the part after it; None when `sep` does not occur.
   */
  function SplitAt(s: string, sep: char): (r: Option<(string, string)>)
  {
    if s == [] then None
    else if s[0] == sep then Some(([], s[1..]))
    else match SplitAt(s[1..], sep)
      case None => None
      case Some((before, after)) => Some(([s[0]] + before, after))
  }

  /** Splitting `a + [sep] + b` at `sep` recovers `a` and `b` when `sep` is not in `a`. */
  lemma {:induction false} SplitAtFirst(a: string, sep: char, b: string)
    requires sep !in a
    ensures SplitAt(a + [sep] + b, sep) == Some((a, b))
  {
    if a != [] {
      assert (a + [sep] + b)[1..] == a[1..] + [sep] + b;
      SplitAtFirst(a[1..], sep, b);
      assert [a[0]] + a[1..] == a;
    }
  }
}
