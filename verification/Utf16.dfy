/** Slicing and truncating UTF-16 strings without splitting a surrogate pair. */
module Utf16 {
  import opened Basics

  newtype CodeUnit = x: int | 0 <= x < 0x1_0000

  type Text = seq<CodeUnit>

  predicate IsHigh(u: CodeUnit) {
    0xd800 <= u <= 0xdbff
  }

  predicate IsLow(u: CodeUnit) {
    0xdc00 <= u <= 0xdfff
  }

  /** Decoding from the left (section 2.2 of RFC 2781): each unit stands alone, or a high
      surrogate is followed by a low one. */
  predicate WellFormed(s: Text) {
    s == []
    || (!IsHigh(s[0]) && !IsLow(s[0]) && WellFormed(s[1..]))
    || (|s| >= 2 && IsHigh(s[0]) && IsLow(s[1]) && WellFormed(s[2..]))
  }

  /** Every high surrogate is followed, and every low one preceded, by its partner. */
  ghost predicate Paired(s: Text) {
    && (forall i :: 0 <= i < |s| && IsHigh(s[i]) ==> i + 1 < |s| && IsLow(s[i + 1]))
    && (forall i :: 0 <= i < |s| && IsLow(s[i]) ==> i > 0 && IsHigh(s[i - 1]))
  }

  lemma {:induction false} WellFormedIffPaired(s: Text)
    ensures WellFormed(s) <==> Paired(s)
  {
    if s != [] && !IsHigh(s[0]) && !IsLow(s[0]) {
      WellFormedIffPaired(s[1..]);
      DropPaired(s, 1);
    } else if |s| >= 2 && IsHigh(s[0]) && IsLow(s[1]) {
      WellFormedIffPaired(s[2..]);
      DropPaired(s, 2);
    }
  }

  /** Dropping k units that end between characters. */
  lemma DropPaired(s: Text, k: nat)
    requires 1 <= k <= |s| && k <= 2
    requires if k == 1 then !IsHigh(s[0]) && !IsLow(s[0]) else IsHigh(s[0]) && IsLow(s[1])
    ensures Paired(s) <==> Paired(s[k..])
  {
    var t := s[k..];
    assert forall i :: 0 <= i < |t| ==> t[i] == s[i + k];
    if Paired(t) {
      forall i | 0 <= i < |s| && IsHigh(s[i]) ensures i + 1 < |s| && IsLow(s[i + 1]) {
        assert i >= k ==> IsHigh(t[i - k]);
      }
      forall i | 0 <= i < |s| && IsLow(s[i]) ensures i > 0 && IsHigh(s[i - 1]) {
        assert i >= k ==> IsLow(t[i - k]);
      }
    }
    if Paired(s) {
      forall i | 0 <= i < |t| && IsHigh(t[i]) ensures i + 1 < |t| && IsLow(t[i + 1]) {
        assert IsHigh(s[i + k]) && IsLow(s[i + k + 1]);
      }
      forall i | 0 <= i < |t| && IsLow(t[i]) ensures i > 0 && IsHigh(t[i - 1]) {
        assert IsLow(s[i + k]) && IsHigh(s[i + k - 1]);
      }
    }
  }

  /** Position k does not fall inside a surrogate pair. */
  predicate Boundary(s: Text, k: nat) {
    k <= |s| && !(0 < k < |s| && IsHigh(s[k - 1]) && IsLow(s[k]))
  }

  /** A relative or absolute index as JavaScript's slice reads it. */
  function Clamp(i: int, len: nat): nat {
    if i < 0 then if len + i > 0 then len + i else 0
    else if i < len then i else len
  }

  /** The ordered range that a call asks for. */
  function Range(len: nat, start: int, end: Option<int>): (r: (nat, nat))
    ensures r.0 <= r.1 <= len
  {
    var from := Clamp(start, len);
    var to := if end.None? then len else Clamp(end.value, len);
    if to < from then (to, from) else (from, to)
  }

  /** Surrogates are the units whose leading six bits are 110110 or 110111 (section 2.1 of
      RFC 2781). */
  lemma SurrogateRanges(u: CodeUnit)
    ensures IsHigh(u) <==> u as int / 0x400 == 0x36
    ensures IsLow(u) <==> u as int / 0x400 == 0x37
  {
  }

  /** A position of the range is the index itself when it lies in the text, counts from the
      end when it is negative, and stops at the ends of the text; the two are put in order. */
  lemma RangeMeaning(len: nat, start: int, end: Option<int>, x: nat, y: nat)
    requires IsPosition(len, start, x) && (if end.None? then y == len else IsPosition(len, end.value, y))
    ensures Range(len, start, end) == if x <= y then (x, y) else (y, x)
  {
  }

  predicate IsPosition(len: int, i: int, x: nat) {
    && (0 <= i <= len ==> x == i)
    && (i > len ==> x == len)
    && (-len <= i < 0 ==> x == i + len)
    && (i < -len ==> x == 0)
  }

  /** The longest stretch of the range that starts and ends between characters. */
  ghost predicate IsSafeSlice(s: Text, lo: nat, hi: nat, r: Text)
    requires lo <= hi <= |s|
  {
    exists a, b :: lo <= a <= b <= hi && IsLongest(s, lo, hi, a, b) && r == s[a..b]
  }

  ghost predicate IsLongest(s: Text, lo: nat, hi: nat, a: nat, b: nat)
    requires lo <= hi <= |s|
  {
    && (a == b || (Boundary(s, a) && Boundary(s, b)))
    && forall x, y :: lo <= x < y <= hi && Boundary(s, x) && Boundary(s, y) ==> a <= x && y <= b
  }

  method SliceUtf16Safe(input: Text, start: int, end: Option<int>) returns (r: Text)
    ensures var (lo, hi) := Range(|input|, start, end);
      IsSafeSlice(input, lo, hi, r) && hi - lo - 2 <= |r| <= hi - lo
  {
    var len := |input|;
    var from := if start < 0 then (if len + start > 0 then len + start else 0) else if start < len then start else len;
    var to := len;
    if end.Some? {
      to := if end.value < 0 then (if len + end.value > 0 then len + end.value else 0)
            else if end.value < len then end.value else len;
    }
    if to < from {
      var tmp := from;
      from := to;
      to := tmp;
    }
    ghost var lo, hi := from, to;
    assert (lo, hi) == Range(|input|, start, end);
    if from > 0 && from < len {
      if IsLow(input[from]) && IsHigh(input[from - 1]) {
        from := from + 1;
      }
    }
    if to > 0 && to < len {
      if IsHigh(input[to - 1]) && IsLow(input[to]) {
        to := to - 1;
      }
    }
    // slice(from, to) is empty when to is not beyond from
    r := if from <= to then input[from..to] else [];
    assert IsSafeSlice(input, lo, hi, r) by {
      SafeSlice(input, lo, hi, from, to);
      if from <= to {
        assert IsLongest(input, lo, hi, from, to);
      } else {
        assert IsLongest(input, lo, hi, lo, lo) && input[lo..lo] == [];
      }
    }
  }

  lemma SafeSlice(s: Text, lo: nat, hi: nat, from: nat, to: nat)
    requires lo <= hi <= |s|
    requires from == if Boundary(s, lo) then lo else lo + 1
    requires to == if Boundary(s, hi) then hi else hi - 1
    ensures if from <= to then IsLongest(s, lo, hi, from, to) else IsLongest(s, lo, hi, lo, lo)
  {
  }

  lemma SliceWellFormed(s: Text, a: nat, b: nat)
    requires WellFormed(s) && a <= b <= |s| && (a == b || (Boundary(s, a) && Boundary(s, b)))
    ensures WellFormed(s[a..b])
  {
    WellFormedIffPaired(s);
    var t := s[a..b];
    forall i | 0 <= i < |t| && IsHigh(t[i]) ensures i + 1 < |t| && IsLow(t[i + 1]) {
      assert IsHigh(s[a + i]) && IsLow(s[a + i + 1]);
    }
    forall i | 0 <= i < |t| && IsLow(t[i]) ensures i > 0 && IsHigh(t[i - 1]) {
      assert IsLow(s[a + i]) && IsHigh(s[a + i - 1]);
    }
    WellFormedIffPaired(t);
  }

  /** A slice of well-formed text is well formed. */
  lemma SafeSliceWellFormed(s: Text, lo: nat, hi: nat, r: Text)
    requires WellFormed(s) && lo <= hi <= |s| && IsSafeSlice(s, lo, hi, r)
    ensures WellFormed(r)
  {
    var a, b :| lo <= a <= b <= hi && IsLongest(s, lo, hi, a, b) && r == s[a..b];
    SliceWellFormed(s, a, b);
  }

  /** In well-formed text no well-formed piece of the range is longer than the slice: the
      slice contains every one of them. */
  lemma SliceIsLongestWellFormed(s: Text, lo: nat, hi: nat, r: Text, x: nat, y: nat)
    requires WellFormed(s) && lo <= x <= y <= hi <= |s| && IsSafeSlice(s, lo, hi, r)
    requires WellFormed(s[x..y])
    ensures y - x <= |r|
  {
    var a, b :| lo <= a <= b <= hi && IsLongest(s, lo, hi, a, b) && r == s[a..b];
    if x < y {
      WellFormedIffPaired(s);
      WellFormedIffPaired(s[x..y]);
      var t := s[x..y];
      assert t[0] == s[x] && t[|t| - 1] == s[y - 1];
      assert Boundary(s, x) && Boundary(s, y);
    }
  }

  /** Truncation keeps a prefix; it cuts only over-long text, and then to the limit or one
      unit less, never inside a pair. */
  method TruncateUtf16Safe(input: Text, maxLen: real) returns (r: Text)
    ensures r <= input
    ensures var limit := if maxLen.Floor > 0 then maxLen.Floor else 0;
      if |input| <= limit then r == input
      else Boundary(input, |r|) && |r| == (if Boundary(input, limit) then limit else limit - 1)
    ensures WellFormed(input) ==> WellFormed(r)
  {
    var limit := if maxLen.Floor > 0 then maxLen.Floor else 0;
    if |input| <= limit {
      return input;
    }
    r := SliceUtf16Safe(input, 0, Some(limit));
    TruncatedSlice(input, limit, r);
    if WellFormed(input) {
      SafeSliceWellFormed(input, 0, limit, r);
    }
  }

  lemma TruncatedSlice(s: Text, limit: nat, r: Text)
    requires limit < |s| && IsSafeSlice(s, 0, limit, r)
    ensures r == s[..if Boundary(s, limit) then limit else limit - 1]
    ensures Boundary(s, |r|)
  {
    var a, b :| 0 <= a <= b <= limit && IsLongest(s, 0, limit, a, b) && r == s[a..b];
    var k := if Boundary(s, limit) then limit else limit - 1;
    assert Boundary(s, 0) && Boundary(s, k);
    if k > 0 {
      assert a <= 0 && k <= b;
      assert !Boundary(s, limit) ==> a == b || b == k;
    }
  }
}
