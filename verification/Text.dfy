/** The string operations of Python that the parsers rely on. */
module Text {
  /** What `str.strip` removes. */
  predicate IsSpace(c: char)
  {
    var k := c as int;
    || 0x09 <= k <= 0x0d || 0x1c <= k <= 0x20 || k == 0x85 || k == 0xa0 || k == 0x1680
    || 0x2000 <= k <= 0x200a || k == 0x2028 || k == 0x2029 || k == 0x202f || k == 0x205f || k == 0x3000
  }

  lemma SpaceExactly(c: char)
    ensures IsSpace(c) <==>
              c as int in {9, 10, 11, 12, 13, 28, 29, 30, 31, 32, 133, 160, 5760, 8192, 8193, 8194, 8195, 8196, 8197,
                           8198, 8199, 8200, 8201, 8202, 8232, 8233, 8239, 8287, 12288}
  {
  }

  predicate AllSpace(s: string)
  {
    forall i :: 0 <= i < |s| ==> IsSpace(s[i])
  }

  /** Neither the first nor the last character is a space. */
  predicate Trimmed(s: string)
  {
    s != "" ==> !IsSpace(s[0]) && !IsSpace(s[|s| - 1])
  }

  /** The first position from i on that holds no space. */
  function SkipLeft(s: string, i: nat): (lo: nat)
    requires i <= |s|
    ensures i <= lo <= |s|
    decreases |s| - i
  {
    if i < |s| && IsSpace(s[i]) then SkipLeft(s, i + 1) else i
  }

  /** The last position down from i, not below lo, that follows no space. */
  function SkipRight(s: string, lo: nat, i: nat): (hi: nat)
    requires lo <= i <= |s|
    ensures lo <= hi <= i
    decreases i
  {
    if lo < i && IsSpace(s[i - 1]) then SkipRight(s, lo, i - 1) else i
  }

  /** `s.strip()` */
  function Strip(s: string): string
  {
    var lo := SkipLeft(s, 0);
    s[lo..SkipRight(s, lo, |s|)]
  }

  predicate SpaceBetween(s: string, i: nat, j: nat)
    requires j <= |s|
  {
    forall k :: i <= k < j ==> IsSpace(s[k])
  }

  lemma {:induction false} SkipLeftOf(s: string, i: nat, lo: nat)
    requires i <= lo <= |s| && SpaceBetween(s, i, lo) && (lo < |s| ==> !IsSpace(s[lo]))
    ensures SkipLeft(s, i) == lo
    decreases lo - i
  {
    if i < lo {
      SkipLeftOf(s, i + 1, lo);
    }
  }

  lemma {:induction false} SkipRightOf(s: string, lo: nat, hi: nat, i: nat)
    requires lo <= hi <= i <= |s| && SpaceBetween(s, hi, i) && (lo < hi ==> !IsSpace(s[hi - 1]))
    ensures SkipRight(s, lo, i) == hi
    decreases i
  {
    if hi < i {
      SkipRightOf(s, lo, hi, i - 1);
    }
  }

  /** Stripping finds the trimmed core of a padded string, whatever the padding. */
  lemma StripOf(a: string, core: string, b: string)
    requires AllSpace(a) && AllSpace(b) && Trimmed(core)
    ensures Strip(a + core + b) == core
  {
    var s := a + core + b;
    var lo := if core == "" then |s| else |a|;
    SkipLeftOf(s, 0, lo);
    SkipRightOf(s, lo, lo + |core|, |s|);
  }

  lemma {:induction false} SkippedLeft(s: string, i: nat)
    requires i <= |s|
    ensures var lo := SkipLeft(s, i); SpaceBetween(s, i, lo) && (lo < |s| ==> !IsSpace(s[lo]))
    decreases |s| - i
  {
    if i < |s| && IsSpace(s[i]) {
      SkippedLeft(s, i + 1);
    }
  }

  lemma {:induction false} SkippedRight(s: string, lo: nat, i: nat)
    requires lo <= i <= |s|
    ensures var hi := SkipRight(s, lo, i); SpaceBetween(s, hi, i) && (lo < hi ==> !IsSpace(s[hi - 1]))
    decreases i
  {
    if lo < i && IsSpace(s[i - 1]) {
      SkippedRight(s, lo, i - 1);
    }
  }

  lemma CutOut(s: string, lo: nat, hi: nat)
    requires lo <= hi <= |s| && SpaceBetween(s, 0, lo) && SpaceBetween(s, hi, |s|)
    requires lo < hi ==> !IsSpace(s[lo]) && !IsSpace(s[hi - 1])
    ensures AllSpace(s[..lo]) && AllSpace(s[hi..]) && Trimmed(s[lo..hi])
  {
  }

  lemma ThreeParts(s: string, lo: nat, hi: nat)
    requires lo <= hi <= |s|
    ensures s == s[..lo] + s[lo..hi] + s[hi..]
  {
  }

  /** Every string is its stripped core with padding around it. */
  lemma StripSplits(s: string) returns (a: string, b: string)
    ensures AllSpace(a) && AllSpace(b) && Trimmed(Strip(s)) && s == a + Strip(s) + b
  {
    var lo := SkipLeft(s, 0);
    var hi := SkipRight(s, lo, |s|);
    SkippedLeft(s, 0);
    SkippedRight(s, lo, |s|);
    a, b := s[..lo], s[hi..];
    ThreeParts(s, lo, hi);
    CutOut(s, lo, hi);
  }

  /** `s.split(c)[0]` */
  function FirstPart(s: string, c: char): string
  {
    if s == "" || s[0] == c then "" else [s[0]] + FirstPart(s[1..], c)
  }

  lemma {:induction false} FirstPartOf(part: string, c: char, rest: string)
    requires c !in part && (rest != "" ==> rest[0] == c)
    ensures FirstPart(part + rest, c) == part
  {
    if part == "" {
      assert part + rest == rest;
    } else {
      assert (part + rest)[1..] == part[1..] + rest;
      FirstPartOf(part[1..], c, rest);
    }
  }
}
