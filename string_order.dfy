/**
 * The C library's strcmp, as used for name keys of the registry and for the
 * ordering of the sorted enumeration.  Names are NUL-free C strings, so the
 * comparison is lexicographic with a proper prefix sorting first.  Characters
 * compare by their code, as strcmp compares unsigned chars.  Only the sign of
 * strcmp is specified by C, so the model returns -1, 0 or 1.
 */
module StringOrder {

  /** Sign of strcmp(a, b). */
  function StrCmp(a: string, b: string): (r: int)
    ensures -1 <= r <= 1
    ensures r == 0 <==> a == b
    ensures a != [] && b == [] ==> r == 1
    ensures a == [] && b != [] ==> r == -1
    ensures |a| < |b| && a == b[..|a|] ==> r == -1
    ensures forall i :: 0 <= i < |a| && i < |b| && a[..i] == b[..i] && a[i] < b[i] ==> r == -1
  {
    if a == [] then (if b == [] then 0 else -1)
    else if b == [] then 1
    else if a[0] < b[0] then -1
    else if b[0] < a[0] then 1
    else
      assert a == [a[0]] + a[1..] && b == [b[0]] + b[1..];
      assert |a| < |b| && a == b[..|a|] ==> a[1..] == b[1..][..|a[1..]|];
      assert forall i :: 1 <= i < |a| && i < |b| && a[..i] == b[..i] ==> a[1..][..i - 1] == b[1..][..i - 1] by {
        forall i | 1 <= i < |a| && i < |b| && a[..i] == b[..i] ensures a[1..][..i - 1] == b[1..][..i - 1] {
          assert a[1..][..i - 1] == a[..i][1..];
          assert b[1..][..i - 1] == b[..i][1..];
        }
      }
      StrCmp(a[1..], b[1..])
  }

  /** a sorts strictly before b under strcmp. */
  predicate StrLess(a: string, b: string) {
    StrCmp(a, b) < 0
  }

  /** Swapping the arguments of strcmp flips the sign of its result. */
  lemma {:induction false} StrCmpAntisymmetric(a: string, b: string)
    ensures StrCmp(a, b) == -StrCmp(b, a)
  {
    if a != [] && b != [] && a[0] == b[0] {
      StrCmpAntisymmetric(a[1..], b[1..]);
    }
  }

  /** Strcmp orders strings transitively. */
  lemma {:induction false} StrCmpTransitive(a: string, b: string, c: string)
    requires StrLess(a, b) && StrLess(b, c)
    ensures StrLess(a, c)
  {
    if a != [] && b != [] && c != [] && a[0] == b[0] && b[0] == c[0] {
      StrCmpTransitive(a[1..], b[1..], c[1..]);
    }
  }

  /** Two distinct strings are always ordered one way or the other. */
  lemma StrLessTotal(a: string, b: string)
    requires a != b
    ensures StrLess(a, b) != StrLess(b, a)
  {
    StrCmpAntisymmetric(a, b);
  }
}
