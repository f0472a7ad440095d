/** The few string operations of Python's `str` that the core relies on. */
module Text {

  /** `needle in haystack` for strings: substring containment, stated recursively. */
  predicate Contains(haystack: string, needle: string)
    decreases |haystack|
  {
    needle <= haystack || (|haystack| > 0 && Contains(haystack[1..], needle))
  }

  /** The reference meaning of containment: `needle` occurs at some offset. */
  ghost predicate OccursAt(haystack: string, needle: string, i: int) {
    0 <= i && i + |needle| <= |haystack| && haystack[i..i + |needle|] == needle
  }

  lemma OccursShift(haystack: string, needle: string, i: int)
    requires |haystack| > 0 && i > 0
    ensures OccursAt(haystack, needle, i) <==> OccursAt(haystack[1..], needle, i - 1)
  {
    if 0 <= i - 1 && i - 1 + |needle| <= |haystack| - 1 {
      assert haystack[1..][i - 1..i - 1 + |needle|] == haystack[i..i + |needle|];
    }
  }

  lemma {:induction false} ContainsIffOccurs(haystack: string, needle: string)
    ensures Contains(haystack, needle) <==> exists i :: OccursAt(haystack, needle, i)
    decreases |haystack|
  {
    if needle <= haystack {
      assert OccursAt(haystack, needle, 0);
    } else if |haystack| > 0 {
      ContainsIffOccurs(haystack[1..], needle);
      forall i | i > 0
        ensures OccursAt(haystack, needle, i) <==> OccursAt(haystack[1..], needle, i - 1)
      {
        OccursShift(haystack, needle, i);
      }
      if Contains(haystack[1..], needle) {
        var i :| OccursAt(haystack[1..], needle, i);
        assert OccursAt(haystack, needle, i + 1);
      }
    }
  }

  /** A string contains every string that is glued into it. */
  lemma ContainsMiddle(a: string, b: string, c: string)
    ensures Contains(a + b + c, b)
  {
    assert (a + b + c)[|a|..|a| + |b|] == b;
    assert OccursAt(a + b + c, b, |a|);
    ContainsIffOccurs(a + b + c, b);
  }

  function DigitChar(d: nat): (c: char)
    requires d < 10
    ensures '0' <= c <= '9' && c as int - '0' as int == d
  {
    (d + '0' as int) as char
  }

  predicate IsDigits(s: string) {
    forall i :: 0 <= i < |s| ==> '0' <= s[i] <= '9'
  }

  /** `str(n)` for a natural number: its decimal digits, without leading zeros. */
  function Decimal(n: nat): (s: string)
    ensures |s| >= 1 && IsDigits(s)
    ensures s[0] == '0' ==> n == 0
    decreases n
  {
    if n < 10 then [DigitChar(n)] else Decimal(n / 10) + [DigitChar(n % 10)]
  }

  /** The value of a string of decimal digits (`int(s)` on digits). */
  function ParseDecimal(s: string): nat
    requires IsDigits(s)
    decreases |s|
  {
    if s == [] then 0
    else ParseDecimal(s[..|s| - 1]) * 10 + (s[|s| - 1] as int - '0' as int)
  }

  /** Rendering a number and reading it back gives the number. */
  lemma {:induction false} ParseDecimalOfDecimal(n: nat)
    ensures ParseDecimal(Decimal(n)) == n
    decreases n
  {
    var s := Decimal(n);
    if n < 10 {
      assert s[..0] == [];
    } else {
      ParseDecimalOfDecimal(n / 10);
      assert s[..|s| - 1] == Decimal(n / 10);
    }
  }

  /** `sep.join(parts)`. */
  function Join(parts: seq<string>, sep: string): string
    decreases |parts|
  {
    if |parts| == 0 then ""
    else if |parts| == 1 then parts[0]
    else parts[0] + sep + Join(parts[1..], sep)
  }

  /** Where the k-th part starts in `Join(parts, sep)`. */
  function Offset(parts: seq<string>, sep: string, k: nat): nat
    requires k <= |parts|
    decreases k
  {
    if k == 0 then 0 else Offset(parts, sep, k - 1) + |parts[k - 1]| + |sep|
  }

  lemma OffsetTail(parts: seq<string>, sep: string, k: nat)
    requires 1 <= k <= |parts|
    ensures Offset(parts, sep, k) == |parts[0]| + |sep| + Offset(parts[1..], sep, k - 1)
    decreases k
  {
    if k > 1 {
      OffsetTail(parts, sep, k - 1);
    }
  }

  /**
   * The joined string lays the parts out in order: part k sits at Offset(k), and
   * between two consecutive parts stands exactly one separator.
   */
  lemma {:induction false} JoinLayout(parts: seq<string>, sep: string, k: nat)
    requires k < |parts|
    ensures Offset(parts, sep, k) + |parts[k]| <= |Join(parts, sep)|
    ensures k + 1 < |parts| ==> Offset(parts, sep, k + 1) <= |Join(parts, sep)|
    ensures Join(parts, sep)[Offset(parts, sep, k)..Offset(parts, sep, k) + |parts[k]|] == parts[k]
    ensures k + 1 < |parts| ==>
      Join(parts, sep)[Offset(parts, sep, k) + |parts[k]|..Offset(parts, sep, k + 1)] == sep
    decreases k, 1
  {
    if |parts| > 1 {
      if k == 0 {
        assert Offset(parts, sep, 1) == |parts[0]| + |sep|;
        HeadLayout(Join(parts, sep), parts[0], sep, Join(parts[1..], sep));
      } else {
        LaterLayout(parts, sep, k);
      }
    }
  }

  /** The inductive step of `JoinLayout`: part k of `parts` is part k - 1 of its tail. */
  lemma {:induction false} LaterLayout(parts: seq<string>, sep: string, k: nat)
    requires 0 < k < |parts|
    ensures Offset(parts, sep, k) + |parts[k]| <= |Join(parts, sep)|
    ensures k + 1 < |parts| ==> Offset(parts, sep, k + 1) <= |Join(parts, sep)|
    ensures Join(parts, sep)[Offset(parts, sep, k)..Offset(parts, sep, k) + |parts[k]|] == parts[k]
    ensures k + 1 < |parts| ==>
      Join(parts, sep)[Offset(parts, sep, k) + |parts[k]|..Offset(parts, sep, k + 1)] == sep
    decreases k, 0
  {
    var tail := parts[1..];
    var more := k + 1 < |parts|;
    var o := Offset(tail, sep, k - 1);
    var o2 := if more then Offset(tail, sep, k) else 0;
    JoinLayout(tail, sep, k - 1);
    assert tail[k - 1] == parts[k];
    var head := parts[0] + sep;
    OffsetTail(parts, sep, k);
    assert Offset(parts, sep, k) == |head| + o;
    if more {
      OffsetTail(parts, sep, k + 1);
      assert Offset(parts, sep, k + 1) == |head| + o2;
    }
    assert Join(parts, sep) == head + Join(tail, sep);
    ShiftLayout(Join(parts, sep), head, Join(tail, sep), sep, parts[k], o, o2, more);
  }

  /** The first part and the separator after it open `first + sep + rest`. */
  lemma HeadLayout(j: string, first: string, sep: string, rest: string)
    requires j == first + sep + rest
    ensures |first| + |sep| <= |j|
    ensures j[0..|first|] == first && j[|first|..|first| + |sep|] == sep
  {
    assert j == first + (sep + rest);
    assert (sep + rest)[0..|sep|] == sep;
    SliceShift(first, sep + rest, 0, |sep|);
  }

  /** A part and its separator, found in `rest`, are found in `head + rest` shifted by `|head|`. */
  lemma ShiftLayout(j: string, head: string, rest: string, sep: string, part: string, o: nat, o2: nat, more: bool)
    requires j == head + rest
    requires o + |part| <= |rest| && rest[o..o + |part|] == part
    requires more ==> o + |part| <= o2 <= |rest| && rest[o + |part|..o2] == sep
    ensures |head| + o + |part| <= |j|
    ensures j[|head| + o..|head| + o + |part|] == part
    ensures more ==> |head| + o2 <= |j| && j[|head| + o + |part|..|head| + o2] == sep
  {
    SliceShift(head, rest, o, o + |part|);
    if more {
      SliceShift(head, rest, o + |part|, o2);
    }
  }

  /** A slice of the right operand of a concatenation, seen through the whole. */
  lemma SliceShift(a: string, b: string, i: nat, j: nat)
    requires i <= j <= |b|
    ensures (a + b)[|a| + i..|a| + j] == b[i..j]
  {
  }

  /** Part k sits at `Offset(k)` in `joined`, and the separator follows it unless it is the last. */
  ghost predicate LaidOut(joined: string, parts: seq<string>, sep: string, k: nat)
    requires k < |parts|
  {
    var at := Offset(parts, sep, k);
    && at + |parts[k]| <= |joined|
    && joined[at..at + |parts[k]|] == parts[k]
    && (k + 1 < |parts| ==> at + |parts[k]| <= Offset(parts, sep, k + 1) <= |joined|)
    && (k + 1 < |parts| ==> joined[at + |parts[k]|..Offset(parts, sep, k + 1)] == sep)
  }

  /** `JoinLayout`, stated through `LaidOut`. */
  lemma JoinLaidOut(parts: seq<string>, sep: string, k: nat)
    requires k < |parts|
    ensures LaidOut(Join(parts, sep), parts, sep, k)
  {
    JoinLayout(parts, sep, k);
  }

  /** ASCII upper-casing of one character, as `str.upper` does for ASCII letters. */
  function UpperChar(c: char): char {
    if 'a' <= c <= 'z' then (c as int - 32) as char else c
  }

  /** `s.upper()` on ASCII text. */
  function Upper(s: string): (r: string)
    ensures |r| == |s|
    ensures forall i :: 0 <= i < |s| ==> r[i] == UpperChar(s[i])
  {
    seq(|s|, i requires 0 <= i < |s| => UpperChar(s[i]))
  }
}
