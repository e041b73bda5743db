/**
 * Message keys: 16-byte UUIDs and the byte-by-byte order `less` that both
 * indexes of the store are built on (selfdestruct.go:29-39).
 */
module Keys {

  newtype Byte = b: int | 0 <= b < 256

  /** A UUID is a fixed array of sixteen bytes. */
  type UUID = s: seq<Byte> | |s| == 16 witness seq(16, _ => 0)

  /**
   * Lexicographic order on byte sequences: the first position at which the
   * two sequences differ decides, and equal sequences are not ordered.
   */
  predicate LexLess(a: seq<Byte>, b: seq<Byte>)
  {
    |a| > 0 && |b| > 0 && (a[0] < b[0] || (a[0] == b[0] && LexLess(a[1..], b[1..])))
  }

  /**
   * `less`: walks the sixteen bytes, returning at the first byte that
   * differs, and returns false when no byte differs.
   */
  method Less(a: UUID, b: UUID) returns (r: bool)
    ensures r == LexLess(a, b)
  {
    var i := 0;
    while i < 16
      invariant 0 <= i <= 16
      invariant LexLess(a, b) == LexLess(a[i..], b[i..])
    {
      assert a[i..][1..] == a[i + 1..] && b[i..][1..] == b[i + 1..];
      if a[i] < b[i] {
        return true;
      } else if a[i] > b[i] {
        return false;
      }
      i := i + 1;
    }
    return false;
  }

  lemma {:induction false} LexLessIrreflexive(a: seq<Byte>)
    ensures !LexLess(a, a)
  {
    if |a| > 0 {
      LexLessIrreflexive(a[1..]);
    }
  }

  lemma {:induction false} LexLessTransitive(a: seq<Byte>, b: seq<Byte>, c: seq<Byte>)
    requires LexLess(a, b) && LexLess(b, c)
    ensures LexLess(a, c)
  {
    if a[0] == b[0] && b[0] == c[0] {
      LexLessTransitive(a[1..], b[1..], c[1..]);
    }
  }

  /** On keys of one length the order is total: two distinct keys are ordered one way or the other, never both. */
  lemma {:induction false} LexLessTrichotomy(a: seq<Byte>, b: seq<Byte>)
    requires |a| == |b|
    ensures !(LexLess(a, b) && LexLess(b, a))
    ensures a != b <==> LexLess(a, b) || LexLess(b, a)
  {
    if LexLess(a, b) && LexLess(b, a) {
      LexLessTransitive(a, b, a);
      LexLessIrreflexive(a);
    }
    if a == b {
      LexLessIrreflexive(a);
    } else if |a| > 0 && a[0] == b[0] {
      LexLessTrichotomy(a[1..], b[1..]);
    }
  }

  /** Independent of the recursion: the first byte at which two keys differ decides their order. */
  lemma {:induction false} LexLessFirstDifference(a: seq<Byte>, b: seq<Byte>, i: nat)
    requires |a| == |b| && i < |a|
    requires a[..i] == b[..i] && a[i] != b[i]
    ensures LexLess(a, b) <==> a[i] < b[i]
    ensures LexLess(b, a) <==> b[i] < a[i]
  {
    if i > 0 {
      assert a[0] == a[..i][0] && b[0] == b[..i][0];
      assert a[1..][..i - 1] == a[..i][1..] && b[1..][..i - 1] == b[..i][1..];
      LexLessFirstDifference(a[1..], b[1..], i - 1);
    }
  }
}
