/** The pieces of Python's string and integer built-ins the script relies on:
    slicing with clamped and negative indices, `str.join`, repeated `+`
    concatenation and `str(n)` for a non-negative integer. The script itself
    never splits a string; `Split` is here only as the inverse of `str.join`,
    the reading that recovers a forwarder line's destinations. */
module PyStr {

  /** Python's normalisation of a slice bound against a sequence of length n:
      a negative bound counts from the end, and the result is clamped to [0, n]. */
  function ClampIndex(i: int, n: nat): (r: nat)
    ensures r <= n
    ensures 0 <= i <= n ==> r == i
    ensures i > n ==> r == n
    ensures -(n as int) <= i < 0 ==> r == i + n
    ensures i < -(n as int) ==> r == 0
  {
    if i < 0 then (if i + n < 0 then 0 else i + n)
    else if i > n then n
    else i
  }

  /** `s[start:stop]` with Python's semantics (step 1). */
  function Slice<T>(s: seq<T>, start: int, stop: int): (r: seq<T>)
    ensures |r| <= |s|
    ensures 0 <= start <= |s| && start <= stop ==> r == s[start..if stop <= |s| then stop else |s|]
    ensures 0 <= stop <= start ==> r == []
    ensures start >= |s| ==> r == []
  {
    var lo := ClampIndex(start, |s|);
    var hi := ClampIndex(stop, |s|);
    if lo < hi then s[lo..hi] else []
  }

  /** `sep.join(xs)`. */
  function Join(sep: string, xs: seq<string>): string
  {
    if |xs| == 0 then ""
    else if |xs| == 1 then xs[0]
    else xs[0] + sep + Join(sep, xs[1..])
  }

  /** Sum of the lengths of the strings in xs. */
  function TotalLength(xs: seq<string>): nat
  {
    if |xs| == 0 then 0 else |xs[0]| + TotalLength(xs[1..])
  }

  lemma {:induction false} JoinLength(sep: string, xs: seq<string>)
    requires |xs| > 0
    ensures |Join(sep, xs)| == TotalLength(xs) + (|xs| - 1) * |sep|
  {
    if |xs| > 1 {
      JoinLength(sep, xs[1..]);
    }
  }

  /** The index of the first occurrence of c in s. */
  function IndexOf(c: char, s: string): (i: nat)
    requires c in s
    ensures i < |s| && s[i] == c
    ensures forall j :: 0 <= j < i ==> s[j] != c
  {
    if s[0] == c then 0 else 1 + IndexOf(c, s[1..])
  }

  /** Python's `s.split(c)` for a one-character separator, the inverse of
      `c.join`: always at least one piece, and no piece contains the separator. */
  function Split(c: char, s: string): (r: seq<string>)
    ensures |r| >= 1
    ensures forall k :: 0 <= k < |r| ==> c !in r[k]
    decreases |s|
  {
    if c !in s then [s]
    else
      var i := IndexOf(c, s);
      [s[..i]] + Split(c, s[i + 1..])
  }

  /** Splitting a joined list on the separator gives the list back, as long as
      no element contains the separator and the list is not empty. */
  lemma {:induction false} SplitJoin(c: char, xs: seq<string>)
    requires |xs| >= 1
    requires forall k :: 0 <= k < |xs| ==> c !in xs[k]
    ensures Split(c, Join([c], xs)) == xs
  {
    if |xs| == 1 {
    } else {
      var s := Join([c], xs);
      var rest := Join([c], xs[1..]);
      assert s == xs[0] + [c] + rest;
      assert s[|xs[0]|] == c;
      assert c in s;
      assert forall j :: 0 <= j < |xs[0]| ==> s[j] == xs[0][j];
      assert IndexOf(c, s) == |xs[0]|;
      assert s[..|xs[0]|] == xs[0];
      assert s[|xs[0]| + 1..] == rest;
      SplitJoin(c, xs[1..]);
      assert xs == [xs[0]] + xs[1..];
    }
  }

  /** Concatenation of segments in order, as a loop of `acc = acc + seg` does. */
  function Concat(segs: seq<string>): string
  {
    if |segs| == 0 then "" else segs[0] + Concat(segs[1..])
  }

  /** Concatenation distributes over sequence append, and it agrees with
      joining on the empty separator. */
  lemma {:induction false} ConcatAppend(a: seq<string>, b: seq<string>)
    ensures Concat(a + b) == Concat(a) + Concat(b)
    ensures |Concat(a)| == TotalLength(a)
  {
    if |a| == 0 {
      assert a + b == b;
    } else {
      assert (a + b)[0] == a[0];
      assert (a + b)[1..] == a[1..] + b;
      ConcatAppend(a[1..], b);
    }
  }

  lemma {:induction false} ConcatIsJoin(segs: seq<string>)
    ensures Concat(segs) == Join("", segs)
  {
    if |segs| > 1 {
      ConcatIsJoin(segs[1..]);
    } else if |segs| == 1 {
      assert Concat(segs[1..]) == "";
    }
  }

  /** The decimal digit character for d. */
  function DigitChar(d: nat): (c: char)
    requires d < 10
    ensures '0' <= c <= '9'
    ensures c as int - '0' as int == d
  {
    ('0' as int + d) as char
  }

  predicate IsDigits(s: string)
  {
    forall i :: 0 <= i < |s| ==> '0' <= s[i] <= '9'
  }

  /** `str(n)` for a non-negative integer: its decimal digits, no leading zero. */
  function Decimal(n: nat): (s: string)
    ensures |s| >= 1
    ensures IsDigits(s)
    ensures s[0] == '0' ==> n == 0
    decreases n
  {
    if n < 10 then [DigitChar(n)] else Decimal(n / 10) + [DigitChar(n % 10)]
  }

  /** The number a string of decimal digits denotes. */
  function DecimalValue(s: string): nat
    requires IsDigits(s)
  {
    if |s| == 0 then 0
    else DecimalValue(s[..|s| - 1]) * 10 + (s[|s| - 1] as int - '0' as int)
  }

  /** Reading back the printed count gives the count. */
  lemma {:induction false} DecimalRoundTrip(n: nat)
    ensures DecimalValue(Decimal(n)) == n
    decreases n
  {
    var s := Decimal(n);
    if n >= 10 {
      DecimalRoundTrip(n / 10);
      assert s[..|s| - 1] == Decimal(n / 10);
    }
  }
}
