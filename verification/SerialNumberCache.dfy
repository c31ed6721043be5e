/** The index of serial numbers: two sorted vectors, one of the numbers and one of the numbers
    written backwards, that answer prefix and suffix queries by binary search. */
module SerialNumberCache {
  import opened Common

  /** A serial number has 12 hexadecimal digits. */
  const WIDTH: nat := 12

  /* ---------- hexadecimal digits ---------- */

  predicate IsHex(c: char) {
    '0' <= c <= '9' || 'a' <= c <= 'f'
  }

  type Hexadecimal = s: string | forall i | 0 <= i < |s| :: IsHex(s[i])

  function DigitValue(c: char): (d: nat)
    requires IsHex(c)
    ensures d < 16
  {
    if c <= '9' then c as nat - '0' as nat else c as nat - 'a' as nat + 10
  }

  function Digit(d: nat): (c: char)
    requires d < 16
    ensures IsHex(c) && DigitValue(c) == d
  {
    if d < 10 then '0' + d as char else 'a' + (d - 10) as char
  }

  /** std::stoull in base 16 */
  function Value(s: Hexadecimal): nat {
    if s == [] then 0 else 16 * Value(s[..|s| - 1]) + DigitValue(s[|s| - 1])
  }

  /** The last k digits of n. */
  function Hex(n: nat, k: nat): (s: Hexadecimal)
    ensures |s| == k
  {
    if k == 0 then [] else Hex(n / 16, k - 1) + [Digit(n % 16)]
  }

  /** The number with k digits that are 1 followed by zeros, one digit too long. */
  function Power(k: nat): (p: nat)
    ensures p >= 1
  {
    if k == 0 then 1 else 16 * Power(k - 1)
  }

  type Serial = n: nat | n < Power(WIDTH)

  function Reversed(s: Hexadecimal): (r: Hexadecimal)
    ensures |r| == |s|
  {
    if s == [] then [] else Reversed(s[1..]) + [s[0]]
  }

  /** A number written backwards in 12 digits. */
  function Backwards(n: nat): nat {
    Value(Reversed(Hex(n, WIDTH)))
  }

  lemma {:induction false} ValueBelow(s: Hexadecimal)
    ensures Value(s) < Power(|s|)
  {
    if s != [] {
      ValueBelow(s[..|s| - 1]);
    }
  }

  lemma {:induction false} HexOfValue(s: Hexadecimal)
    ensures Hex(Value(s), |s|) == s
  {
    if s != [] {
      var front, d := s[..|s| - 1], DigitValue(s[|s| - 1]);
      HexOfValue(front);
      Peel(Value(front), d);
      assert s == front + [Digit(d)];
    }
  }

  lemma Peel(v: nat, d: nat)
    requires d < 16
    ensures (16 * v + d) / 16 == v && (16 * v + d) % 16 == d
  {
  }

  lemma ValueOfAppended(front: Hexadecimal, d: nat)
    requires d < 16
    ensures Value(front + [Digit(d)]) == 16 * Value(front) + d
  {
    assert (front + [Digit(d)])[..|front|] == front;
  }

  lemma {:induction false} ValueOfHex(n: nat, k: nat)
    requires n < Power(k)
    ensures Value(Hex(n, k)) == n
  {
    if k > 0 {
      assert n / 16 < Power(k - 1);
      assert Hex(n, k) == Hex(n / 16, k - 1) + [Digit(n % 16)];
      hide Value, Power, Hex, Digit;
      ValueOfHex(n / 16, k - 1);
      ValueOfAppended(Hex(n / 16, k - 1), n % 16);
    }
  }

  lemma {:induction false} MirroredDigit(s: Hexadecimal, i: nat)
    requires i < |s|
    ensures Reversed(s)[i] == s[|s| - 1 - i]
  {
    if i < |s| - 1 {
      MirroredDigit(s[1..], i);
    }
  }

  lemma ReversedTwice(s: Hexadecimal)
    ensures Reversed(Reversed(s)) == s
  {
    forall i | 0 <= i < |s|
      ensures Reversed(Reversed(s))[i] == s[i]
    {
      MirroredDigit(Reversed(s), i);
      MirroredDigit(s, |s| - 1 - i);
    }
  }

  /** Writing backwards is its own inverse on 12-digit numbers, and reverses their digits. */
  lemma BackwardsTwice(n: Serial)
    ensures Backwards(n) < Power(WIDTH)
    ensures Hex(Backwards(n), WIDTH) == Reversed(Hex(n, WIDTH))
    ensures Backwards(Backwards(n)) == n
  {
    ValueBelow(Reversed(Hex(n, WIDTH)));
    HexOfValue(Reversed(Hex(n, WIDTH)));
    ReversedTwice(Hex(n, WIDTH));
    ValueOfHex(n, WIDTH);
  }

  /** Utils::IntToSerialNumber */
  method IntToSerialNumber(n: u64) returns (s: Hexadecimal)
    ensures s == Hex(n, WIDTH)
  {
    s := [];
    var rest: nat := n;
    var i := 0;
    hide Digit;
    while i < WIDTH
      invariant i <= WIDTH && Hex(n, WIDTH) == Hex(rest, WIDTH - i) + s
    {
      s := [Digit(rest % 16)] + s;
      rest := rest / 16;
      i := i + 1;
    }
  }

  /** ReverseSerialNumber: a copy from the last character to the first. */
  method ReverseSerialNumber(s: Hexadecimal) returns (r: Hexadecimal)
    ensures r == Reversed(s)
  {
    r := [];
    var i := |s|;
    assert s[..i] == s;
    while i > 0
      invariant 0 <= i <= |s| && Reversed(s) == r + Reversed(s[..i])
    {
      LastFirst(s[..i]);
      assert s[..i][..i - 1] == s[..i - 1];
      i := i - 1;
      r := r + [s[i]];
    }
  }

  lemma {:induction false} LastFirst(s: Hexadecimal)
    requires s != []
    ensures Reversed(s) == [s[|s| - 1]] + Reversed(s[..|s| - 1])
  {
    if |s| > 1 {
      LastFirst(s[1..]);
      assert s[1..][..|s| - 2] == s[..|s| - 1][1..];
    }
  }

  lemma ReversedAppended(front: Hexadecimal, c: char)
    requires IsHex(c)
    ensures Reversed(front + [c]) == [c] + Reversed(front)
  {
    LastFirst(front + [c]);
    assert (front + [c])[..|front|] == front;
  }

  /* ---------- reversal by shifting ---------- */

  /** The number whose k digits are the last k digits of n, backwards. */
  function Flipped(n: nat, k: nat): nat {
    if k == 0 then 0 else n % 16 * Power(k - 1) + Flipped(n / 16, k - 1)
  }

  lemma {:induction false} ValueOfPrefixed(c: char, s: Hexadecimal)
    requires IsHex(c)
    ensures Value([c] + s) == DigitValue(c) * Power(|s|) + Value(s)
  {
    if s == [] {
      assert [c] + s == [c];
      assert Value([c]) == 16 * Value([]) + DigitValue(c);
    } else {
      ValueOfPrefixed(c, s[..|s| - 1]);
      assert ([c] + s)[..|s|] == [c] + s[..|s| - 1];
      Regroup(DigitValue(c), 16, Power(|s| - 1));
    }
  }

  lemma {:induction false} FlippedIsReversed(n: nat, k: nat)
    ensures Flipped(n, k) == Value(Reversed(Hex(n, k)))
  {
    if k > 0 {
      hide Value, Power, Digit, Reversed;
      var front := Hex(n / 16, k - 1);
      FlippedIsReversed(n / 16, k - 1);
      ReversedAppended(front, Digit(n % 16));
      ValueOfPrefixed(Digit(n % 16), Reversed(front));
    } else {
      assert Hex(n, 0) == [] && Reversed([]) == [];
    }
  }

  lemma {:induction false} FlippedBelow(n: nat, k: nat)
    ensures Flipped(n, k) < Power(k)
  {
    if k > 0 {
      FlippedBelow(n / 16, k - 1);
      TimesAtMost(n % 16, 15, Power(k - 1));
    }
  }

  lemma FlippedStep(n: nat, k: nat)
    requires k > 0
    ensures Flipped(n, k) == n % 16 * Power(k - 1) + Flipped(n / 16, k - 1)
  {
  }

  /** The extra digits of a longer reversal are its lowest. */
  lemma {:induction false} FlippedShifted(n: nat, k: nat, m: nat) returns (low: nat)
    ensures low < Power(m) && Flipped(n, k + m) == Flipped(n, k) * Power(m) + low
  {
    if k == 0 {
      FlippedBelow(n, m);
      low := Flipped(n, m);
    } else {
      hide Flipped, Power;
      FlippedStep(n, k);
      FlippedStep(n, k + m);
      low := FlippedShifted(n / 16, k - 1, m);
      PowerSum(k - 1, m);
      Collect(n % 16, Power(k - 1), Flipped(n / 16, k - 1), Power(m));
    }
  }

  lemma {:induction false} PowerSum(a: nat, b: nat)
    ensures Power(a + b) == Power(a) * Power(b)
  {
    if a > 0 {
      PowerSum(a - 1, b);
      Regroup(Power(a - 1), 16, Power(b));
    }
  }

  /* Multiplication, one fact at a time. */

  lemma Regroup(a: nat, b: nat, c: nat)
    ensures b * (a * c) == a * (b * c) == b * a * c
  {
  }

  lemma TimesAtMost(a: nat, b: nat, c: nat)
    requires a <= b
    ensures a * c <= b * c
  {
  }

  lemma Collect(d: nat, a: nat, f: nat, b: nat)
    ensures d * (a * b) + f * b == (d * a + f) * b
  {
  }

  lemma Shifted(a: nat, d: nat, p: nat)
    ensures a * (16 * p) + d * p == (a * 16 + d) * p
  {
  }

  /** The state of the shifting loop after i of 16 nibbles. */
  ghost predicate Turned(n: nat, res: nat, rest: nat, i: nat) {
    i <= 16 && res < Power(i) && Flipped(n, 16) == res * Power(16 - i) + Flipped(rest, 16 - i)
  }

  lemma TurnedStart(n: nat)
    ensures Turned(n, 0, n, 0)
  {
    assert Power(0) == 1;
    hide Flipped, Power;
  }

  lemma PowerOf15()
    ensures 16 * Power(15) == TWO_64
  {
    assert Power(4) == 0x1_0000;
    PowerSum(4, 4);
    PowerSum(8, 8);
    assert Power(16) == 16 * Power(15);
  }

  /** One turn of the loop: nothing overflows 64 bits. */
  lemma TurnedStep(n: nat, res: nat, rest: nat, i: nat)
    requires Turned(n, res, rest, i) && i < 16
    ensures res * 16 % TWO_64 == res * 16
    ensures Turned(n, res * 16 + rest % 16, rest / 16, i + 1)
  {
    PowerMonotone(i, 15);
    PowerOf15();
    FlippedStep(rest, 16 - i);
    Shifted(res, rest % 16, Power(15 - i));
  }

  lemma TurnedEnd(n: nat, res: nat, rest: nat)
    requires Turned(n, res, rest, 16)
    ensures res / 0x1_0000 == Backwards(n)
  {
    assert Power(0) == 1 && Power(4) == 0x1_0000 && Flipped(rest, 0) == 0;
    hide Flipped, Power, Hex, Value, Reversed;
    var low := FlippedShifted(n, WIDTH, 4);
    FlippedIsReversed(n, WIDTH);
  }

  /** Reverse: sixteen nibbles of a 64-bit word turned around, then the lowest four dropped. */
  method Reverse(n: u64) returns (res: nat)
    ensures res == Backwards(n)
  {
    res := 0;
    var rest: nat := n;
    var i := 0;
    hide Turned, Backwards;
    TurnedStart(n);
    while i < 16
      invariant i <= 16 && Turned(n, res, rest, i)
    {
      TurnedStep(n, res, rest, i);
      res := res * 16 % TWO_64 + rest % 16;
      rest := rest / 16;
      i := i + 1;
    }
    TurnedEnd(n, res, rest);
    res := res / 0x1_0000;
  }

  lemma {:induction false} PowerMonotone(a: nat, b: nat)
    requires a <= b
    ensures Power(a) <= Power(b)
    decreases b
  {
    if a < b {
      PowerMonotone(a, b - 1);
    }
  }

  /* ---------- prefixes and ranges ---------- */

  /** The 12 digits of n begin with p. */
  predicate Starts(p: Hexadecimal, n: nat) {
    |p| <= WIDTH && Hex(n, WIDTH)[..|p|] == p
  }

  /** The 12 digits of n end with p. */
  predicate Ends(p: Hexadecimal, n: nat) {
    |p| <= WIDTH && Hex(n, WIDTH)[WIDTH - |p|..] == p
  }

  /** n without its last m digits. */
  function Front(n: nat, m: nat): nat {
    if m == 0 then n else Front(n / 16, m - 1)
  }

  lemma {:induction false} HexPrefix(n: nat, k: nat, m: nat)
    ensures Hex(n, k + m)[..k] == Hex(Front(n, m), k)
    decreases m
  {
    if m > 0 {
      HexPrefix(n / 16, k, m - 1);
      assert Hex(n, k + m)[..k + m - 1] == Hex(n / 16, k + m - 1);
      assert Hex(n, k + m)[..k] == Hex(n, k + m)[..k + m - 1][..k];
    } else {
      assert Hex(n, k)[..k] == Hex(n, k);
    }
  }

  lemma {:induction false} FrontRange(n: nat, m: nat)
    ensures Front(n, m) * Power(m) <= n < (Front(n, m) + 1) * Power(m)
    decreases m
  {
    if m > 0 {
      var d := Front(n / 16, m - 1);
      FrontRange(n / 16, m - 1);
      Regroup(d, 16, Power(m - 1));
      Regroup(d + 1, 16, Power(m - 1));
    }
  }

  /** The numbers with a given prefix are a range. */
  lemma PrefixIsRange(p: Hexadecimal, n: Serial)
    requires |p| <= WIDTH
    ensures Starts(p, n) <==> Value(p) * Power(WIDTH - |p|) <= n < (Value(p) + 1) * Power(WIDTH - |p|)
  {
    hide Hex, Value, Power, Front;
    var m := WIDTH - |p|;
    HexPrefix(n, |p|, m);
    HexOfValue(p);
    FrontRange(n, m);
    PowerSum(|p|, m);
    SameRange(n, Power(m), Front(n, m), Value(p), Power(|p|));
    ValueOfHex(Front(n, m), |p|);
  }

  lemma SameRange(n: nat, d: nat, q: nat, v: nat, limit: nat)
    requires q * d <= n < (q + 1) * d && n < limit * d
    ensures q == v <==> v * d <= n < (v + 1) * d
    ensures q < limit
  {
    if v < q {
      TimesAtMost(v + 1, q, d);
    } else if q < v {
      TimesAtMost(q + 1, v, d);
    }
    if limit <= q {
      TimesAtMost(limit, q, d);
    }
  }

  /** Padding a prefix with zeros gives the least number with that prefix. */
  lemma {:induction false} ValuePadded(p: Hexadecimal, zeros: Hexadecimal)
    requires forall i | 0 <= i < |zeros| :: zeros[i] == '0'
    ensures Value(p + zeros) == Value(p) * Power(|zeros|)
  {
    if zeros == [] {
      assert p + zeros == p;
    } else {
      var front := zeros[..|zeros| - 1];
      ValuePadded(p, front);
      assert p + zeros == (p + front) + [Digit(0)];
      ValueOfAppended(p + front, 0);
      Regroup(Value(p), 16, Power(|front|));
    }
  }

  /* ---------- sorted vectors ---------- */

  predicate Sorted(v: seq<nat>) {
    forall i, j | 0 <= i < j < |v| :: v[i] < v[j]
  }

  /** std::lower_bound */
  function LowerBound(v: seq<nat>, x: nat): (i: nat)
    ensures i <= |v| && (forall j | 0 <= j < i :: v[j] < x) && (i < |v| ==> v[i] >= x)
  {
    if v == [] || v[0] >= x then 0 else 1 + LowerBound(v[1..], x)
  }

  function Inserted(v: seq<nat>, x: nat): seq<nat> {
    if x in v then v else v[..LowerBound(v, x)] + [x] + v[LowerBound(v, x)..]
  }

  function Erased(v: seq<nat>, x: nat): seq<nat> {
    if x in v then v[..LowerBound(v, x)] + v[LowerBound(v, x) + 1..] else v
  }

  function Members(v: seq<nat>): set<nat> {
    set x | x in v
  }

  lemma SortedConcat(a: seq<nat>, b: seq<nat>)
    requires Sorted(a) && Sorted(b) && (forall i, j | 0 <= i < |a| && 0 <= j < |b| :: a[i] < b[j])
    ensures Sorted(a + b)
  {
  }

  lemma SortedSlice(v: seq<nat>, lo: nat, hi: nat)
    requires Sorted(v) && lo <= hi <= |v|
    ensures Sorted(v[lo..hi])
  {
  }

  /** A sorted vector cut in two at the lower bound of x, and without x. */
  lemma CutAtBound(v: seq<nat>, x: nat)
    requires Sorted(v)
    ensures var i := LowerBound(v, x);
      && Sorted(v[..i]) && (forall j | 0 <= j < i :: v[..i][j] < x)
      && Sorted(v[i..]) && (forall j | 0 <= j < |v| - i :: v[i..][j] >= x)
  {
    hide LowerBound;
    var i := LowerBound(v, x);
    SortedSlice(v, 0, i);
    SortedSlice(v, i, |v|);
    assert v[0..i] == v[..i] && v[i..|v|] == v[i..];
  }

  lemma InsertedSorted(v: seq<nat>, x: nat)
    requires Sorted(v) && x !in v
    ensures Sorted(Inserted(v, x))
  {
    hide LowerBound;
    var i := LowerBound(v, x);
    CutAtBound(v, x);
    SortedConcat(v[..i], [x]);
    forall j | 0 <= j < |v[i..]|
      ensures v[i..][j] > x
    {
      assert v[i..][j] == v[i + j] && v[i + j] in v;
    }
    SortedConcat(v[..i] + [x], v[i..]);
  }

  lemma InsertedMembers(v: seq<nat>, x: nat)
    ensures Members(Inserted(v, x)) == Members(v) + {x}
  {
    hide LowerBound, Sorted;
    if x !in v {
      var i := LowerBound(v, x);
      assert v == v[..i] + v[i..];
      assert forall y :: y in v <==> y in v[..i] || y in v[i..];
      assert forall y :: y in Inserted(v, x) <==> y in v[..i] + [x] || y in v[i..];
    }
  }

  lemma BoundFinds(v: seq<nat>, x: nat)
    requires Sorted(v) && x in v
    ensures LowerBound(v, x) < |v| && v[LowerBound(v, x)] == x
  {
    hide LowerBound;
    var k :| 0 <= k < |v| && v[k] == x;
    assert k >= LowerBound(v, x);
  }

  lemma ErasedSorted(v: seq<nat>, x: nat)
    requires Sorted(v) && x in v
    ensures Sorted(Erased(v, x))
  {
    hide LowerBound;
    var i := LowerBound(v, x);
    BoundFinds(v, x);
    SortedSlice(v, 0, i);
    SortedSlice(v, i + 1, |v|);
    assert v[0..i] == v[..i] && v[i + 1..|v|] == v[i + 1..];
    SortedConcat(v[..i], v[i + 1..]);
  }

  lemma OnlyOnce(v: seq<nat>, i: nat)
    requires Sorted(v) && i < |v|
    ensures v[i] !in v[..i] && v[i] !in v[i + 1..]
  {
  }

  lemma ErasedMembers(v: seq<nat>, x: nat)
    requires Sorted(v)
    ensures Members(Erased(v, x)) == Members(v) - {x}
  {
    hide LowerBound, Sorted;
    if x in v {
      BoundFinds(v, x);
      var i := LowerBound(v, x);
      OnlyOnce(v, i);
      assert v == v[..i] + [x] + v[i + 1..];
      assert forall y :: y in v <==> y in v[..i] + [x] || y in v[i + 1..];
      assert forall y :: y in Erased(v, x) <==> y in v[..i] || y in v[i + 1..];
    }
  }

  /* ---------- answers to queries ---------- */

  /** The linear scan a query must agree with. */
  function Scan(v: seq<nat>, p: Hexadecimal): seq<nat> {
    if v == [] then []
    else (if Starts(p, v[0]) then [v[0]] else []) + Scan(v[1..], p)
  }

  function First(v: seq<nat>, howMany: nat): seq<nat> {
    v[..Min(|v|, howMany)]
  }

  /** In a sorted vector the numbers with a prefix are neighbours, from the lower bound of the
      padded prefix on. */
  lemma {:induction false} ScanBlock(v: seq<nat>, p: Hexadecimal, lo: nat, hi: nat)
    requires lo <= hi <= |v|
    requires forall j | 0 <= j < lo || hi <= j < |v| :: !Starts(p, v[j])
    requires forall j | lo <= j < hi :: Starts(p, v[j])
    ensures Scan(v, p) == v[lo..hi]
  {
    hide Starts;
    if v != [] {
      var rest := v[1..];
      assert forall j | 0 <= j < |rest| :: rest[j] == v[j + 1];
      if lo > 0 {
        ScanBlock(rest, p, lo - 1, hi - 1);
        assert rest[lo - 1..hi - 1] == v[lo..hi];
      } else if hi > 0 {
        ScanBlock(rest, p, 0, hi - 1);
        assert [v[0]] + rest[..hi - 1] == v[..hi];
      } else {
        ScanBlock(rest, p, 0, 0);
      }
    }
  }

  /** What a query asks for: numbers that begin with p, or, after a star, numbers that end with it. */
  predicate Matches(suffix: bool, p: Hexadecimal, n: nat) {
    if suffix then Ends(p, n) else Starts(p, n)
  }

  /** The order of the answer: by number, or by the number written backwards. */
  function Key(suffix: bool, n: nat): nat {
    if suffix then Backwards(n) else n
  }

  ghost predicate OnlyMatches(found: seq<nat>, sns: seq<nat>, suffix: bool, p: Hexadecimal) {
    forall i | 0 <= i < |found| :: found[i] in sns && Matches(suffix, p, found[i])
  }

  ghost predicate InOrder(found: seq<nat>, suffix: bool) {
    forall i, j | 0 <= i < j < |found| :: Key(suffix, found[i]) < Key(suffix, found[j])
  }

  ghost predicate AllBefore(found: seq<nat>, suffix: bool, n: nat) {
    forall i | 0 <= i < |found| :: Key(suffix, found[i]) < Key(suffix, n)
  }

  ghost predicate NoneMissed(found: seq<nat>, sns: seq<nat>, suffix: bool, p: Hexadecimal, howMany: nat) {
    forall n | n in sns && Matches(suffix, p, n) && n !in found :: |found| == howMany && AllBefore(found, suffix, n)
  }

  /** The first `howMany` matching numbers, in order: only matching numbers, strictly in order,
      and a matching number is left out only when there is no room and it comes later. */
  ghost predicate Answer(found: seq<nat>, sns: seq<nat>, suffix: bool, p: Hexadecimal, howMany: nat) {
    && OnlyMatches(found, sns, suffix, p)
    && InOrder(found, suffix)
    && |found| <= howMany
    && NoneMissed(found, sns, suffix, p, howMany)
  }

  ghost predicate AllSerials(v: seq<nat>) {
    forall i | 0 <= i < |v| :: v[i] < Power(WIDTH)
  }

  /** Where a binary search for the padded prefix lands: before it nothing matches. */
  lemma NothingBefore(v: seq<nat>, p: Hexadecimal, sn: nat, j: nat)
    requires Sorted(v) && AllSerials(v) && |p| <= WIDTH && sn == Value(p) * Power(WIDTH - |p|)
    requires j < LowerBound(v, sn)
    ensures !Starts(p, v[j])
  {
    hide LowerBound, Hex, Value, Power;
    PrefixIsRange(p, v[j]);
  }

  /** Past the first number that does not match nothing matches. */
  lemma NothingAfter(v: seq<nat>, p: Hexadecimal, sn: nat, hi: nat, j: nat)
    requires Sorted(v) && AllSerials(v) && |p| <= WIDTH && sn == Value(p) * Power(WIDTH - |p|)
    requires LowerBound(v, sn) <= hi <= j < |v| && !Starts(p, v[hi])
    ensures !Starts(p, v[j])
  {
    hide LowerBound, Hex, Value, Power;
    PrefixIsRange(p, v[hi]);
    PrefixIsRange(p, v[j]);
    assert v[LowerBound(v, sn)] >= sn;
  }

  function Mapped(v: seq<nat>): (r: seq<nat>)
    ensures |r| == |v| && forall i | 0 <= i < |v| :: r[i] == Backwards(v[i])
  {
    seq(|v|, i requires 0 <= i < |v| => Backwards(v[i]))
  }

  /** What the loop of ReturnNumbers compares with the pattern, and what it would append. */
  method Candidate(n: Serial, reverseResult: bool) returns (tsn: Hexadecimal, number: nat)
    ensures tsn == Hex(n, WIDTH)
    ensures number == if reverseResult then Backwards(n) else n
  {
    hide Hex, Reversed, Backwards, Power;
    SerialFits(n);
    if reverseResult {
      BackwardsTwice(n);
      number := Reverse(n);
      SerialFits(number);
      tsn := IntToSerialNumber(number);
      tsn := ReverseSerialNumber(tsn);
      ReversedTwice(Hex(n, WIDTH));
    } else {
      number := n;
      tsn := IntToSerialNumber(n);
    }
  }

  /** The part of ReturnNumbers for fewer than 12 digits: from the lower bound on, until a number
      does not match or enough are found. It finds what a linear scan finds. */
  method CollectMatching(p: Hexadecimal, howMany: nat, v: seq<nat>, reverseResult: bool) returns (found: seq<nat>)
    requires Sorted(v) && AllSerials(v) && |p| < WIDTH
    ensures found == Shown(First(Scan(v, p), howMany), reverseResult)
  {
    hide LowerBound, Scan, Sorted, Hex, Value, Power, Backwards, Starts, Shown, AllSerials;
    var zeros: Hexadecimal := seq(WIDTH - |p|, _ => '0');
    var sn := Value(p + zeros);
    ValuePadded(p, zeros);
    var lo := LowerBound(v, sn);
    var it, left := lo, howMany;
    found := [];
    ShownNone(v, lo, reverseResult);
    while it < |v| && left > 0
      invariant lo <= it <= |v| && left == howMany - (it - lo)
      invariant forall j | lo <= j < it :: Starts(p, v[j])
      invariant found == Shown(v[lo..it], reverseResult)
    {
      SerialIn(v, v[it]);
      var tsn, number := Candidate(v[it], reverseResult);
      StartsByDigits(p, v[it]);
      if p == tsn[..|p|] {
        ShownNext(v, lo, it, reverseResult);
        found := found + [number];
      } else {
        break;
      }
      it := it + 1;
      left := left - 1;
    }
    if left > 0 {
      ScanEndsHere(v, p, sn, it);
    } else {
      ScanContinues(v, p, sn, it);
    }
    assert First(Scan(v, p), howMany) == v[lo..it];
  }

  /** The numbers of a suffix query are turned back before they are returned. */
  function Shown(v: seq<nat>, reverseResult: bool): seq<nat> {
    if reverseResult then Mapped(v) else v
  }

  lemma StartsByDigits(p: Hexadecimal, n: nat)
    requires |p| <= WIDTH
    ensures Starts(p, n) <==> p == Hex(n, WIDTH)[..|p|]
  {
  }

  lemma ShownNone(v: seq<nat>, lo: nat, reverseResult: bool)
    requires lo <= |v|
    ensures Shown(v[lo..lo], reverseResult) == []
  {
  }

  lemma ShownNext(v: seq<nat>, lo: nat, it: nat, reverseResult: bool)
    requires lo <= it < |v|
    ensures Shown(v[lo..it + 1], reverseResult)
         == Shown(v[lo..it], reverseResult) + [if reverseResult then Backwards(v[it]) else v[it]]
  {
    hide Backwards;
  }

  lemma SerialFits(n: Serial)
    ensures n < TWO_64
  {
    PowerMonotone(WIDTH, 15);
    PowerOf15();
  }

  lemma ScanEndsHere(v: seq<nat>, p: Hexadecimal, sn: nat, hi: nat)
    requires Sorted(v) && AllSerials(v) && |p| <= WIDTH && sn == Value(p) * Power(WIDTH - |p|)
    requires LowerBound(v, sn) <= hi <= |v| && (hi < |v| ==> !Starts(p, v[hi]))
    requires forall j | LowerBound(v, sn) <= j < hi :: Starts(p, v[j])
    ensures Scan(v, p) == v[LowerBound(v, sn)..hi]
  {
    hide LowerBound, Starts, Scan, Value, Power;
    forall j | 0 <= j < LowerBound(v, sn)
      ensures !Starts(p, v[j])
    {
      NothingBefore(v, p, sn, j);
    }
    forall j | hi <= j < |v|
      ensures !Starts(p, v[j])
    {
      NothingAfter(v, p, sn, hi, j);
    }
    ScanBlock(v, p, LowerBound(v, sn), hi);
  }

  /** However far a scan has got, the rest of the matching numbers follow. */
  lemma {:induction false} ScanContinues(v: seq<nat>, p: Hexadecimal, sn: nat, hi: nat)
    requires Sorted(v) && AllSerials(v) && |p| <= WIDTH && sn == Value(p) * Power(WIDTH - |p|)
    requires LowerBound(v, sn) <= hi <= |v|
    requires forall j | LowerBound(v, sn) <= j < hi :: Starts(p, v[j])
    ensures v[LowerBound(v, sn)..hi] <= Scan(v, p)
    decreases |v| - hi
  {
    hide LowerBound, Starts, Scan, Value, Power, Sorted;
    if hi == |v| || !Starts(p, v[hi]) {
      ScanEndsHere(v, p, sn, hi);
    } else {
      ScanContinues(v, p, sn, hi + 1);
      assert v[LowerBound(v, sn)..hi] <= v[LowerBound(v, sn)..hi + 1];
    }
  }

  /* ---------- the two vectors ---------- */

  datatype Index = Index(sns: seq<nat>, reverseSns: seq<nat>)

  /** Both vectors are strictly sorted, and the second holds exactly the numbers of the first,
      written backwards. */
  ghost predicate Consistent(ix: Index) {
    && Sorted(ix.sns) && Sorted(ix.reverseSns) && AllSerials(ix.sns) && AllSerials(ix.reverseSns)
    && Mirrored(ix.sns, ix.reverseSns) && Mirrored(ix.reverseSns, ix.sns)
  }

  ghost predicate Mirrored(v: seq<nat>, w: seq<nat>) {
    forall n | n in v :: Backwards(n) in w
  }

  lemma MirrorOf(v: seq<nat>, w: seq<nat>, n: nat)
    requires Mirrored(v, w) && n in v
    ensures Backwards(n) in w
  {
  }

  function Added(ix: Index, n: nat): Index {
    if n in ix.sns then ix else Index(Inserted(ix.sns, n), Inserted(ix.reverseSns, Backwards(n)))
  }

  function Deleted(ix: Index, n: nat): Index {
    if n in ix.sns then Index(Erased(ix.sns, n), Erased(ix.reverseSns, Backwards(n))) else ix
  }

  lemma InMembers(v: seq<nat>, x: nat)
    ensures x in v <==> x in Members(v)
  {
  }

  lemma AddedKeeps(ix: Index, n: Serial)
    requires Consistent(ix)
    ensures Consistent(Added(ix, n)) && Members(Added(ix, n).sns) == Members(ix.sns) + {n}
    ensures n !in ix.sns ==> Backwards(n) !in ix.reverseSns
  {
    hide Inserted, Sorted, Backwards, Power;
    BackwardsTwice(n);
    if n !in ix.sns {
      var next := Added(ix, n);
      InsertedSorted(ix.sns, n);
      InsertedSorted(ix.reverseSns, Backwards(n));
      InsertedMembers(ix.sns, n);
      InsertedMembers(ix.reverseSns, Backwards(n));
      forall m
        ensures m in next.sns <==> m in ix.sns || m == n
        ensures m in next.reverseSns <==> m in ix.reverseSns || m == Backwards(n)
      {
        InMembers(next.sns, m);
        InMembers(next.reverseSns, m);
      }
      forall i | 0 <= i < |next.sns|
        ensures next.sns[i] < Power(WIDTH)
      {
        assert next.sns[i] in next.sns;
      }
      forall i | 0 <= i < |next.reverseSns|
        ensures next.reverseSns[i] < Power(WIDTH)
      {
        assert next.reverseSns[i] in next.reverseSns;
      }
    } else {
      InMembers(ix.sns, n);
    }
  }

  lemma DeletedKeeps(ix: Index, n: Serial)
    requires Consistent(ix)
    ensures Consistent(Deleted(ix, n)) && Members(Deleted(ix, n).sns) == Members(ix.sns) - {n}
  {
    hide Erased, Sorted, Backwards, Power;
    BackwardsTwice(n);
    if n in ix.sns {
      var next := Deleted(ix, n);
      ErasedSorted(ix.sns, n);
      ErasedSorted(ix.reverseSns, Backwards(n));
      ErasedMembers(ix.sns, n);
      ErasedMembers(ix.reverseSns, Backwards(n));
      forall m
        ensures m in next.sns <==> m in ix.sns && m != n
        ensures m in next.reverseSns <==> m in ix.reverseSns && m != Backwards(n)
      {
        InMembers(next.sns, m);
        InMembers(next.reverseSns, m);
      }
      forall i | 0 <= i < |next.sns|
        ensures next.sns[i] < Power(WIDTH)
      {
        assert next.sns[i] in next.sns;
      }
      forall i | 0 <= i < |next.reverseSns|
        ensures next.reverseSns[i] < Power(WIDTH)
      {
        assert next.reverseSns[i] in next.reverseSns;
      }
      StaysBackwards(ix, n);
    } else {
      InMembers(ix.sns, n);
    }
  }

  /** Two different serial numbers stay different backwards. */
  lemma StaysBackwards(ix: Index, n: Serial)
    requires Consistent(ix)
    ensures forall m | m in ix.sns && m != n :: Backwards(m) != Backwards(n)
    ensures forall r | r in ix.reverseSns && r != Backwards(n) :: Backwards(r) != n
  {
    hide Sorted, Backwards, Power;
    forall m | m in ix.sns && m != n
      ensures Backwards(m) != Backwards(n)
    {
      BackwardsTwice(m);
      BackwardsTwice(n);
    }
    forall r | r in ix.reverseSns && r != Backwards(n)
      ensures Backwards(r) != n
    {
      BackwardsTwice(r);
    }
  }

  datatype Operation = Add(n: Serial) | Delete(n: Serial)

  function Run(operations: seq<Operation>): Index {
    if operations == [] then Index([], [])
    else
      var before, last := Run(operations[..|operations| - 1]), operations[|operations| - 1];
      match last
      case Add(n) => Added(before, n)
      case Delete(n) => Deleted(before, n)
  }

  /** The numbers added and not deleted since. */
  function Present(operations: seq<Operation>): set<nat> {
    if operations == [] then {}
    else
      var before, last := Present(operations[..|operations| - 1]), operations[|operations| - 1];
      match last
      case Add(n) => before + {n}
      case Delete(n) => before - {n}
  }

  /** After any run of additions and deletions the vectors are consistent, and hold what is present. */
  lemma {:induction false} RunIsConsistent(operations: seq<Operation>)
    ensures Consistent(Run(operations))
    ensures Members(Run(operations).sns) == Present(operations)
  {
    hide Consistent, Members, Added, Deleted;
    if operations == [] {
      EmptyIsConsistent();
    } else {
      var before := operations[..|operations| - 1];
      RunIsConsistent(before);
      match operations[|operations| - 1]
      case Add(n) => AddedKeeps(Run(before), n);
      case Delete(n) => DeletedKeeps(Run(before), n);
    }
  }

  lemma EmptyIsConsistent()
    ensures Consistent(Index([], [])) && Members([]) == {}
  {
  }

  /* ---------- answers ---------- */

  lemma ScanIsBlock(v: seq<nat>, p: Hexadecimal) returns (lo: nat, hi: nat)
    requires Sorted(v) && AllSerials(v) && |p| <= WIDTH
    ensures lo <= hi <= |v| && Scan(v, p) == v[lo..hi]
    ensures forall j | 0 <= j < |v| :: Starts(p, v[j]) <==> lo <= j < hi
  {
    hide LowerBound, Scan, Starts, Value, Power, Sorted;
    var sn := Value(p) * Power(WIDTH - |p|);
    lo := LowerBound(v, sn);
    hi := lo;
    while hi < |v| && Starts(p, v[hi])
      invariant lo <= hi <= |v| && forall j | lo <= j < hi :: Starts(p, v[j])
    {
      hi := hi + 1;
    }
    ScanEndsHere(v, p, sn, hi);
    forall j | 0 <= j < |v| && !(lo <= j < hi)
      ensures !Starts(p, v[j])
    {
      if j < lo {
        NothingBefore(v, p, sn, j);
      } else {
        NothingAfter(v, p, sn, hi, j);
      }
    }
  }

  lemma PrefixAnswer(sns: seq<nat>, p: Hexadecimal, howMany: nat)
    requires Sorted(sns) && AllSerials(sns) && |p| <= WIDTH
    ensures Answer(First(Scan(sns, p), howMany), sns, false, p, howMany)
  {
    hide Scan, Starts, AllSerials;
    var lo, hi := ScanIsBlock(sns, p);
    var found := First(Scan(sns, p), howMany);
    assert forall i | 0 <= i < |found| :: found[i] == sns[lo + i];
    forall n | n in sns && Starts(p, n) && n !in found
      ensures |found| == howMany && AllBefore(found, false, n)
    {
      var j :| 0 <= j < |sns| && sns[j] == n;
      assert forall i | 0 <= i < |found| :: found[i] != sns[j];
    }
  }

  /** A number ends with p exactly when, backwards, it begins with p backwards. */
  lemma EndsBackwards(p: Hexadecimal, n: Serial)
    requires |p| <= WIDTH
    ensures Ends(p, n) <==> Starts(Reversed(p), Backwards(n))
  {
    hide Hex, Reversed, Backwards, Power;
    BackwardsTwice(n);
    ReversedTail(Hex(n, WIDTH), |p|);
    SameReversed(Hex(n, WIDTH)[WIDTH - |p|..], p);
  }

  lemma SameReversed(a: Hexadecimal, b: Hexadecimal)
    ensures Reversed(a) == Reversed(b) <==> a == b
  {
    hide Reversed;
    ReversedTwice(a);
    ReversedTwice(b);
  }

  lemma {:induction false} ReversedTail(s: Hexadecimal, k: nat)
    requires k <= |s|
    ensures Reversed(s)[..k] == Reversed(s[|s| - k..])
  {
    if k == |s| {
      assert s[0..] == s;
    } else {
      ReversedTail(s[1..], k);
      assert s[1..][|s| - 1 - k..] == s[|s| - k..];
    }
  }

  lemma SerialIn(v: seq<nat>, x: nat)
    requires AllSerials(v) && x in v
    ensures x < Power(WIDTH)
  {
    hide Power;
  }

  /** A number of the second vector that begins with p backwards, turned back. */
  lemma TurnedBack(ix: Index, p: Hexadecimal, r: nat)
    requires Consistent(ix) && |p| <= WIDTH && r in ix.reverseSns && Starts(Reversed(p), r)
    ensures Backwards(r) in ix.sns && Ends(p, Backwards(r)) && Backwards(Backwards(r)) == r
  {
    hide Starts, Ends, Backwards, Reversed, Sorted, AllSerials, Power, Mirrored;
    SerialIn(ix.reverseSns, r);
    MirrorOf(ix.reverseSns, ix.sns, r);
    BackwardsTwice(r);
    EndsBackwards(p, Backwards(r));
  }

  lemma SuffixAnswer(ix: Index, p: Hexadecimal, howMany: nat)
    requires Consistent(ix) && |p| <= WIDTH
    ensures Answer(Mapped(First(Scan(ix.reverseSns, Reversed(p)), howMany)), ix.sns, true, p, howMany)
  {
    hide Scan, Starts, Ends, Backwards, Reversed, Sorted, AllSerials, First, Power, Mirrored, NoneMissed, AllBefore;
    var matching := First(Scan(ix.reverseSns, Reversed(p)), howMany);
    PrefixAnswer(ix.reverseSns, Reversed(p), howMany);
    var found := Mapped(matching);
    forall i | 0 <= i < |found|
      ensures found[i] in ix.sns && Ends(p, found[i]) && Backwards(found[i]) == matching[i]
    {
      TurnedBack(ix, p, matching[i]);
    }
    NoneMissedBackwards(ix, p, howMany, matching);
  }

  lemma NoneMissedBackwards(ix: Index, p: Hexadecimal, howMany: nat, matching: seq<nat>)
    requires Consistent(ix) && |p| <= WIDTH
    requires OnlyMatches(matching, ix.reverseSns, false, Reversed(p))
    requires NoneMissed(matching, ix.reverseSns, false, Reversed(p), howMany)
    ensures NoneMissed(Mapped(matching), ix.sns, true, p, howMany)
  {
    hide Starts, Ends, Backwards, Reversed, Sorted, AllSerials, Power, Mirrored, OnlyMatches;
    forall n | n in ix.sns && Ends(p, n) && n !in Mapped(matching)
      ensures |matching| == howMany && AllBefore(Mapped(matching), true, n)
    {
      SerialIn(ix.sns, n);
      MirrorOf(ix.sns, ix.reverseSns, n);
      EndsBackwards(p, n);
      BackwardsTwice(n);
      NotMapped(matching, n);
      BeforeBackwards(ix, p, matching, n);
    }
  }

  lemma NotMapped(v: seq<nat>, n: nat)
    requires n !in Mapped(v) && Backwards(Backwards(n)) == n
    ensures Backwards(n) !in v
  {
    hide Backwards;
    forall i | 0 <= i < |v|
      ensures v[i] != Backwards(n)
    {
      assert Mapped(v)[i] in Mapped(v);
    }
  }

  lemma BeforeBackwards(ix: Index, p: Hexadecimal, matching: seq<nat>, n: nat)
    requires Consistent(ix) && |p| <= WIDTH && OnlyMatches(matching, ix.reverseSns, false, Reversed(p))
    requires AllBefore(matching, false, Backwards(n))
    ensures AllBefore(Mapped(matching), true, n)
  {
    hide Starts, Ends, Backwards, Reversed, Sorted, AllSerials, Power, Mirrored;
    forall i | 0 <= i < |matching|
      ensures Backwards(Mapped(matching)[i]) == matching[i]
    {
      TurnedBack(ix, p, matching[i]);
    }
  }

  /** The characters a query may hold: hexadecimal digits, after at most one leading star. */
  predicate Pattern(s: string) {
    forall i | 0 <= i < |s| :: IsHex(s[i]) || (i == 0 && s[0] == '*')
  }

  class Cache {
    var sns: seq<nat>
    var reverseSns: seq<nat>

    constructor ()
      ensures Vectors() == Index([], []) && Consistent(Vectors())
    {
      sns, reverseSns := [], [];
    }

    function Vectors(): Index
      reads this
    {
      Index(sns, reverseSns)
    }

    predicate NumberExists(n: u64)
      reads this
    {
      n in sns
    }

    method AddSerialNumber(s: Hexadecimal)
      requires |s| == WIDTH && Consistent(Vectors())
      modifies this
      ensures Vectors() == Added(old(Vectors()), Value(s)) && Consistent(Vectors())
    {
      hide Hex, Value, Reversed, Power, Sorted, LowerBound, AllSerials;
      ValueBelow(s);
      HexOfValue(s);
      var sn := Value(s);
      AddedKeeps(Vectors(), sn);
      if sn !in sns {
        var insertPoint := LowerBound(sns, sn);
        sns := sns[..insertPoint] + [sn] + sns[insertPoint..];
        var r := ReverseSerialNumber(s);
        var rsn := Value(r);
        insertPoint := LowerBound(reverseSns, rsn);
        reverseSns := reverseSns[..insertPoint] + [rsn] + reverseSns[insertPoint..];
      }
    }

    method DeleteSerialNumber(s: Hexadecimal)
      requires |s| == WIDTH && Consistent(Vectors())
      modifies this
      ensures Vectors() == Deleted(old(Vectors()), Value(s)) && Consistent(Vectors())
    {
      hide Hex, Value, Reversed, Power, Sorted, Erased, AllSerials;
      ValueBelow(s);
      HexOfValue(s);
      var sn := Value(s);
      DeletedKeeps(Vectors(), sn);
      if sn in sns {
        sns := Erased(sns, sn);
        var r := ReverseSerialNumber(s);
        var rsn := Value(r);
        if rsn in reverseSns {
          reverseSns := Erased(reverseSns, rsn);
        }
      }
    }

    /** ReturnNumbers: the numbers to append for a pattern without its star. Twelve digits name
        one number, however many are wanted; more than twelve name none. */
    method ReturnNumbers(p: Hexadecimal, howMany: nat, v: seq<nat>, reverseResult: bool) returns (found: seq<nat>)
      requires Sorted(v) && AllSerials(v)
      ensures |p| == WIDTH ==> found == if Value(p) in v then Shown([Value(p)], reverseResult) else []
      ensures |p| < WIDTH ==> found == Shown(First(Scan(v, p), howMany), reverseResult)
      ensures |p| > WIDTH ==> found == []
    {
      hide Hex, Value, Power, Sorted, Backwards, Scan, AllSerials;
      found := [];
      if |p| == WIDTH {
        var sn := Value(p);
        if sn in v {
          ValueBelow(p);
          SerialFits(sn);
          if reverseResult {
            var back := Reverse(sn);
            found := [back];
          } else {
            found := [sn];
          }
        }
      } else if |p| < WIDTH {
        found := CollectMatching(p, howMany, v, reverseResult);
      }
    }

    /** FindNumbers, with the list it appends to. */
    method FindNumbers(s: string, howMany: nat, a: seq<nat>) returns (numbers: seq<nat>)
      requires Pattern(s) && Consistent(Vectors())
      ensures |a| <= |numbers| && numbers[..|a|] == a
      ensures s == "" || s == "*" ==> numbers == a
      ensures s != "" && s != "*" ==>
        var suffix := s[0] == '*';
        var p: Hexadecimal := if suffix then s[1..] else s;
        var found := numbers[|a|..];
        && (|p| < WIDTH ==> Answer(found, sns, suffix, p, howMany))
        && (|p| == WIDTH ==> found == if Value(p) in sns then [Value(p)] else [])
        && (|p| > WIDTH ==> found == [])
    {
      hide Hex, Value, Power, Sorted, Backwards, Reversed, Scan, AllSerials, Answer;
      numbers := a;
      if s == "" {
        return;
      }
      if s[0] == '*' {
        var reversed := ReverseSerialNumber(s[1..]);
        if reversed == [] {
          return;
        }
        var more := ReturnNumbers(reversed, howMany, reverseSns, true);
        numbers := a + more;
        assert numbers[|a|..] == more;
        if |reversed| < WIDTH {
          SuffixAnswer(Vectors(), s[1..], howMany);
        } else if |reversed| == WIDTH {
          ExactSuffix(Vectors(), s[1..]);
        }
      } else {
        var more := ReturnNumbers(s, howMany, sns, false);
        numbers := a + more;
        assert numbers[|a|..] == more;
        if |s| < WIDTH {
          PrefixAnswer(sns, s, howMany);
        }
      }
    }
  }

  /** Twelve digits after a star name the same number as without it. */
  lemma ExactSuffix(ix: Index, p: Hexadecimal)
    requires Consistent(ix) && |p| == WIDTH
    ensures Value(Reversed(p)) in ix.reverseSns <==> Value(p) in ix.sns
    ensures Backwards(Value(Reversed(p))) == Value(p)
  {
    hide Hex, Value, Reversed, Sorted, Power;
    ValueBelow(p);
    HexOfValue(p);
    BackwardsTwice(Value(p));
  }
}
