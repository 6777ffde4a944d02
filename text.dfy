/** String helpers used by the coupon search: ASCII lower-casing (the model's
    stand-in for `String.prototype.toLowerCase`) and substring search (the
    model of `String.prototype.includes`). */
module Text {

  /** Lower-cases one character; only the ASCII letters 'A'..'Z' change. */
  function Lower(c: char): (r: char)
    ensures 'A' <= c <= 'Z' ==> 'a' <= r <= 'z' && r as int - c as int == 32
    ensures !('A' <= c <= 'Z') ==> r == c
    ensures !('A' <= r <= 'Z')
  {
    if 'A' <= c <= 'Z' then (c as int + 32) as char else c
  }

  /** Lower-cases a string character by character. */
  function LowerStr(s: string): (r: string)
    ensures |r| == |s|
    ensures forall i :: 0 <= i < |s| ==> r[i] == Lower(s[i])
  {
    seq(|s|, i requires 0 <= i < |s| => Lower(s[i]))
  }

  /** Lower-casing a string twice is the same as doing it once. */
  lemma {:induction false} LowerStrIdempotent(s: string)
    ensures LowerStr(LowerStr(s)) == LowerStr(s)
  {
    var once := LowerStr(s);
    assert forall i :: 0 <= i < |s| ==> LowerStr(once)[i] == Lower(once[i]) == once[i];
  }

  /** Lower-casing never produces the empty string from a non-empty one (and back). */
  lemma LowerStrEmpty(s: string)
    ensures LowerStr(s) == "" <==> s == ""
  {
    assert |LowerStr(s)| == |s|;
  }

  /** `n` is a prefix of `h`. */
  predicate IsPrefix(n: string, h: string) {
    |n| <= |h| && h[..|n|] == n
  }

  /** `h.includes(n)`: `n` occurs somewhere in `h`; the empty string occurs everywhere. */
  function Contains(h: string, n: string): bool
    decreases |h|
  {
    IsPrefix(n, h) || (|h| > 0 && Contains(h[1..], n))
  }

  /** `n` occurs in `h` starting at position `i`. */
  predicate OccursAt(h: string, n: string, i: int) {
    0 <= i && i + |n| <= |h| && h[i..i + |n|] == n
  }

  /** The recursive search agrees with the positional definition of "substring". */
  lemma {:induction false} ContainsIffOccurs(h: string, n: string)
    ensures Contains(h, n) <==> exists i :: OccursAt(h, n, i)
    decreases |h|
  {
    if IsPrefix(n, h) {
      assert OccursAt(h, n, 0);
    } else if |h| > 0 {
      ContainsIffOccurs(h[1..], n);
      if Contains(h[1..], n) {
        var i :| OccursAt(h[1..], n, i);
        assert h[1..][i..i + |n|] == h[i + 1..i + 1 + |n|];
        assert OccursAt(h, n, i + 1);
      }
      if exists i :: OccursAt(h, n, i) {
        var i :| OccursAt(h, n, i);
        assert h[1..][i - 1..i - 1 + |n|] == h[i..i + |n|];
        assert OccursAt(h[1..], n, i - 1);
      }
    }
  }

  /** Every string contains the empty string (`"abc".includes("")` is true). */
  lemma {:induction false} ContainsEmpty(h: string)
    ensures Contains(h, "")
  {
    assert h[..0] == "";
  }

  /** A needle longer than the haystack never occurs. */
  lemma {:induction false} ContainsTooLong(h: string, n: string)
    requires |n| > |h|
    ensures !Contains(h, n)
    decreases |h|
  {
    if |h| > 0 {
      ContainsTooLong(h[1..], n);
    }
  }

  /** A non-empty needle whose first character is absent from the haystack never occurs. */
  lemma {:induction false} ContainsFirstCharMissing(h: string, n: string)
    requires |n| > 0 && n[0] !in h
    ensures !Contains(h, n)
    decreases |h|
  {
    if |h| > 0 {
      assert forall k :: 0 <= k < |h[1..]| ==> h[1..][k] == h[k + 1];
      ContainsFirstCharMissing(h[1..], n);
    }
  }
}
