/**
  exchange of getopt.c: two adjacent blocks of argv swapped in place.
 */
module ArgvExchange {

  /** The blocks [b, m) and [m, t) of `s` swapped, each in its own order. */
  function Exchanged<T>(s: seq<T>, b: nat, m: nat, t: nat): (r: seq<T>)
    requires b <= m <= t <= |s|
    ensures |r| == |s|
  {
    seq(|s|, i requires 0 <= i < |s| => s[Origin(b, m, t, i)])
  }

  /** Where the element comes from that the exchange puts at `i`. */
  function Origin(b: nat, m: nat, t: nat, i: nat): (j: nat)
    requires b <= m <= t
    ensures if i < t then j < t else j == i
  {
    if i < b || i >= t then i else if i < b + (t - m) then i + (m - b) else i - (t - m)
  }

  /** The second block, then the first; nothing else moved. */
  lemma ExchangedBlocks<T>(s: seq<T>, b: nat, m: nat, t: nat)
    requires b <= m <= t <= |s|
    ensures Exchanged(s, b, m, t) == s[..b] + s[m..t] + s[b..m] + s[t..]
  {
    var r := s[..b] + s[m..t] + s[b..m] + s[t..];
    forall i | 0 <= i < |s|
      ensures Exchanged(s, b, m, t)[i] == r[i]
    {
    }
  }

  lemma ExchangedSlices<T>(s: seq<T>, b: nat, m: nat, t: nat)
    requires b <= m <= t <= |s|
    ensures
      var r := Exchanged(s, b, m, t);
      var n := b + (t - m);
      r[..n] == s[..b] + s[m..t] && r[n..t] == s[b..m] && r[t..] == s[t..]
  {
    var r := Exchanged(s, b, m, t);
    var n := b + (t - m);
    assert forall i | 0 <= i < n :: r[i] == (s[..b] + s[m..t])[i];
    assert forall i | n <= i < t :: r[i] == s[i - (t - m)];
  }

  function Opposite(x: nat, y: nat, len: nat, i: nat): (j: nat)
    requires x + len <= y
    ensures if i < y + len then j < y + len else j == i
  {
    if x <= i < x + len then i + (y - x) else if y <= i < y + len then i - (y - x) else i
  }

  /** `r` is `s` with the blocks of `len` elements at `x` and `y` swapped. */
  ghost predicate Swapped<T>(r: seq<T>, s: seq<T>, x: nat, y: nat, len: nat)
    requires x + len <= y && y + len <= |s| == |r|
  {
    forall i | 0 <= i < |s| :: r[i] == s[Opposite(x, y, len, i)]
  }

  lemma NoneSwapped<T>(s: seq<T>, x: nat, y: nat)
    requires x <= y <= |s|
    ensures Swapped(s, s, x, y, 0)
  {
  }

  lemma OneMoreSwapped<T>(r: seq<T>, q: seq<T>, s: seq<T>, x: nat, y: nat, i: nat)
    requires x + i + 1 <= y && y + i + 1 <= |s| == |q|
    requires Swapped(q, s, x, y, i) && r == q[x + i := q[y + i]][y + i := q[x + i]]
    ensures Swapped(r, s, x, y, i + 1)
  {
  }

  method SwapBlocks(argv: array<string>, x: nat, y: nat, len: nat)
    requires x + len <= y && y + len <= argv.Length
    modifies argv
    ensures Swapped(argv[..], old(argv[..]), x, y, len)
  {
    hide Swapped;
    NoneSwapped(argv[..], x, y);
    for i := 0 to len
      invariant Swapped(argv[..], old(argv[..]), x, y, i)
    {
      ghost var was := argv[..];
      var tem := argv[x + i];
      argv[x + i] := argv[y + i];
      argv[y + i] := tem;
      OneMoreSwapped(argv[..], was, old(argv[..]), x, y, i);
    }
  }

  /** The shorter first block goes to the far end of the second. */
  lemma FirstShorter<T>(r: seq<T>, s: seq<T>, b: nat, m: nat, t: nat)
    requires b <= m <= t <= |s| == |r| && m - b < t - m
    requires Swapped(r, s, b, t - (m - b), m - b)
    ensures Exchanged(r, b, m, t - (m - b)) == Exchanged(s, b, m, t)
  {
    forall i | 0 <= i < |s|
      ensures r[Origin(b, m, t - (m - b), i)] == s[Origin(b, m, t, i)]
    {
      var j := Origin(b, m, t - (m - b), i);
      assert Opposite(b, t - (m - b), m - b, j) == Origin(b, m, t, i);
    }
  }

  /** The second block, no longer than the first, goes to its near end. */
  lemma SecondShorter<T>(r: seq<T>, s: seq<T>, b: nat, m: nat, t: nat)
    requires b <= m <= t <= |s| == |r| && t - m <= m - b
    requires Swapped(r, s, b, m, t - m)
    ensures Exchanged(r, b + (t - m), m, t) == Exchanged(s, b, m, t)
  {
    forall i | 0 <= i < |s|
      ensures r[Origin(b + (t - m), m, t, i)] == s[Origin(b, m, t, i)]
    {
      var j := Origin(b + (t - m), m, t, i);
      assert Opposite(b, m, t - m, j) == Origin(b, m, t, i);
    }
  }

  lemma NothingToExchange<T>(s: seq<T>, b: nat, m: nat, t: nat)
    requires b <= m <= t <= |s| && (b == m || m == t)
    ensures Exchanged(s, b, m, t) == s
  {
  }

  /** The loop of exchange. */
  method Exchange(argv: array<string>, first: nat, last: nat, optind: nat)
    requires first <= last <= optind <= argv.Length
    modifies argv
    ensures argv[..] == Exchanged(old(argv[..]), first, last, optind)
  {
    hide Exchanged, Swapped;
    var bottom, middle, top := first, last, optind;
    while top > middle > bottom
      invariant first <= bottom <= middle <= top <= optind
      invariant Exchanged(argv[..], bottom, middle, top) == Exchanged(old(argv[..]), first, last, optind)
      decreases top - bottom
    {
      ghost var was := argv[..];
      if top - middle > middle - bottom {
        var len := middle - bottom;
        SwapBlocks(argv, bottom, top - (middle - bottom), len);
        FirstShorter(argv[..], was, bottom, middle, top);
        top := top - len;
      } else {
        var len := top - middle;
        SwapBlocks(argv, bottom, middle, len);
        SecondShorter(argv[..], was, bottom, middle, top);
        bottom := bottom + len;
      }
    }
    NothingToExchange(argv[..], bottom, middle, top);
  }
}
