/**
 The tokenish padding: a random base62 string is lengthened or shortened until
 its HPACK Huffman length is within tolerance of a target, or 150 adjustments
 have been made. Code lengths are those of Appendix B of RFC 7541; the encoded
 length is rounded up to whole octets as in its section 5.2.
 */
module HuffmanPadding {
  import opened Options

  const TOLERANCE := 2
  const MAX_ITER := 150

  predicate IsBase62(c: char) {
    '0' <= c <= '9' || 'A' <= c <= 'Z' || 'a' <= c <= 'z'
  }

  /** Huffman code length of a base62 character. */
  function Bits(c: char): (b: nat)
    ensures 5 <= b <= 8
    ensures c == 'X' || c == 'Z' ==> b == 8
  {
    if c == 'X' || c == 'Z' then 8
    else if '0' <= c <= '2' || c == 'a' || c == 'c' || c == 'e' || c == 'i' || c == 'o' || c == 's' || c == 't' then 5
    else if 'B' <= c <= 'Y' || c == 'j' || c == 'k' || c == 'q' || 'v' <= c <= 'z' then 7
    else 6
  }

  function BitLength(s: string): nat {
    if s == [] then 0 else BitLength(s[..|s| - 1]) + Bits(s[|s| - 1])
  }

  function HuffmanLength(s: string): nat {
    (BitLength(s) + 7) / 8
  }

  lemma {:induction false} BitBounds(s: string)
    ensures 5 * |s| <= BitLength(s) <= 8 * |s|
  {
    if s != [] { BitBounds(s[..|s| - 1]); }
  }

  /** Appending an adjustment character adds exactly one octet; dropping any character removes at most one. */
  lemma OneOctet(s: string, c: char)
    requires Bits(c) == 8
    ensures HuffmanLength(s + [c]) == HuffmanLength(s) + 1
  {
    assert (s + [c])[..|s + [c]| - 1] == s;
  }

  lemma AtMostOneOctet(s: string)
    requires s != []
    ensures HuffmanLength(s) - 1 <= HuffmanLength(s[..|s| - 1]) <= HuffmanLength(s)
  {
  }

  /** The number of characters drawn: the target divided by 0.8, rounded up, at least one. */
  function DrawLength(target: int): nat {
    var n := (5 * target + 3) / 4;
    if n < 1 then 1 else n
  }

  function Other(adjust: char): char {
    if adjust == 'X' then 'Z' else 'X'
  }

  /** `n` adjustment characters, alternating from `adjust`. */
  function Tail(adjust: char, n: nat): string
    decreases n
  {
    if n == 0 then "" else [adjust] + Tail(Other(adjust), n - 1)
  }

  /** The adjustment loop from iteration `iter` on. */
  function Adjust(target: int, s: string, adjust: char, iter: nat): string
    decreases MAX_ITER - iter, |s|
  {
    if iter >= MAX_ITER then s
    else
      var diff := HuffmanLength(s) - target;
      if diff < 0 then
        if -diff <= TOLERANCE then s else Adjust(target, s + [adjust], Other(adjust), iter + 1)
      else if diff <= TOLERANCE then s
      else if |s| <= 1 then s
      else Adjust(target, s[..|s| - 1], adjust, iter + 1)
  }

  method GenerateTokenishPadding(target: int, draw: string) returns (s: string)
    requires |draw| == DrawLength(target)
    ensures s == Adjust(target, draw, 'X', 0)
  {
    s := draw;
    var adjust := 'X';
    var iter := 0;
    while iter < MAX_ITER
      invariant iter <= MAX_ITER
      invariant Adjust(target, s, adjust, iter) == Adjust(target, draw, 'X', 0)
    {
      var diff := HuffmanLength(s) - target;
      if diff < 0 {
        diff := -diff;
        if diff <= TOLERANCE { return; }
        s := s + [adjust];
        adjust := if adjust == 'X' then 'Z' else 'X';
      } else {
        if diff <= TOLERANCE { return; }
        if |s| <= 1 { return; }
        s := s[..|s| - 1];
      }
      iter := iter + 1;
    }
  }

  // ---- the two directions ----

  function Min(a: int, b: int): int { if a < b then a else b }

  /** How many characters a string that is `deficit` octets short still gets. */
  function Appended(deficit: int, iter: nat): nat
    requires iter <= MAX_ITER
  {
    if deficit <= TOLERANCE then 0 else Min(deficit - TOLERANCE, MAX_ITER - iter)
  }

  /** One iteration on a string that is too short and has iterations left. */
  lemma GrowsStep(target: int, s: string, adjust: char, iter: nat)
    requires iter < MAX_ITER && target - HuffmanLength(s) > TOLERANCE
    ensures Adjust(target, s, adjust, iter) == Adjust(target, s + [adjust], Other(adjust), iter + 1)
  {
  }

  lemma TailSnoc(s: string, adjust: char, m: nat)
    requires m > 0
    ensures (s + [adjust]) + Tail(Other(adjust), m - 1) == s + Tail(adjust, m)
  {
    assert Tail(adjust, m) == [adjust] + Tail(Other(adjust), m - 1);
  }

  /** Too short: characters are only appended, one octet each, until within tolerance or out of iterations. */
  lemma {:induction false} GrowsOnly(target: int, s: string, adjust: char, iter: nat)
    requires HuffmanLength(s) < target && iter <= MAX_ITER && (adjust == 'X' || adjust == 'Z')
    ensures var m := Appended(target - HuffmanLength(s), iter);
            && Adjust(target, s, adjust, iter) == s + Tail(adjust, m)
            && HuffmanLength(Adjust(target, s, adjust, iter)) == HuffmanLength(s) + m
    decreases MAX_ITER - iter
  {
    var m := Appended(target - HuffmanLength(s), iter);
    if m > 0 {
      var longer := s + [adjust];
      OneOctet(s, adjust);
      GrowsStep(target, s, adjust, iter);
      GrowsOnly(target, longer, Other(adjust), iter + 1);
      TailSnoc(s, adjust, m);
    } else {
      assert s + Tail(adjust, 0) == s;
    }
  }

  /** Too long: characters are only dropped from the end, never past the target. */
  lemma {:induction false} ShrinksOnly(target: int, s: string, adjust: char, iter: nat) returns (k: nat)
    requires target >= 1 && HuffmanLength(s) >= target && iter <= MAX_ITER
    ensures k <= |s| && k <= MAX_ITER - iter && Adjust(target, s, adjust, iter) == s[..|s| - k]
    ensures HuffmanLength(s[..|s| - k]) >= target
    ensures HuffmanLength(s[..|s| - k]) <= target + TOLERANCE || k == MAX_ITER - iter
    ensures forall n :: |s| - k < n <= |s| ==> HuffmanLength(s[..n]) > target + TOLERANCE
    decreases MAX_ITER - iter
  {
    BitBounds(s);
    if iter < MAX_ITER && HuffmanLength(s) - target > TOLERANCE {
      AtMostOneOctet(s);
      var rest := s[..|s| - 1];
      k := ShrinksOnly(target, rest, adjust, iter + 1);
      assert rest[..|rest| - k] == s[..|s| - (k + 1)];
      forall n | |rest| - k < n <= |s| ensures HuffmanLength(s[..n]) > target + TOLERANCE {
        if n == |s| { assert s[..n] == s; } else { assert rest[..n] == s[..n]; }
      }
      k := k + 1;
    } else {
      k := 0;
      assert s[..|s|] == s;
    }
  }

  function Abs(x: int): nat { if x < 0 then -x else x }

  /** The worst distance from the target that any draw can end with. */
  function WorstMiss(target: int): int {
    var m := (target + 3) / 4 - MAX_ITER;
    if m > TOLERANCE then m else TOLERANCE
  }

  lemma MissWhenShort(target: int, n: nat, bits: nat)
    requires target >= 1 && n == DrawLength(target) && 5 * n <= bits
    ensures target - (bits + 7) / 8 <= (target + 3) / 4
  {
    var len := (bits + 7) / 8;
    assert 8 * len >= bits;
    assert 4 * n >= 5 * target;
    assert 32 * (target - len) <= 7 * target;
  }

  lemma LongestDraw(target: int)
    requires target >= 1
    ensures DrawLength(target) == target + (target + 3) / 4
  {
  }

  lemma ShortDraw(target: int, draw: string)
    requires target >= 1 && |draw| == DrawLength(target) && HuffmanLength(draw) < target
    ensures var m := Appended(target - HuffmanLength(draw), 0);
            && Adjust(target, draw, 'X', 0) == draw + Tail('X', m)
            && target - WorstMiss(target) <= HuffmanLength(Adjust(target, draw, 'X', 0)) <= target
  {
    BitBounds(draw);
    MissWhenShort(target, |draw|, BitLength(draw));
    GrowsOnly(target, draw, 'X', 0);
  }

  lemma LongDraw(target: int, draw: string) returns (k: nat)
    requires target >= 1 && |draw| == DrawLength(target) && HuffmanLength(draw) >= target
    ensures k <= |draw| && k <= MAX_ITER && Adjust(target, draw, 'X', 0) == draw[..|draw| - k]
    ensures target <= HuffmanLength(Adjust(target, draw, 'X', 0)) <= target + WorstMiss(target)
  {
    k := ShrinksOnly(target, draw, 'X', 0);
    BitBounds(draw[..|draw| - k]);
    LongestDraw(target);
  }

  /**
   For every target and every draw: the result is the draw with adjustment
   characters appended or characters dropped, never both, and its Huffman
   length misses the target by at most WorstMiss.
   */
  lemma PaddingNearTarget(target: int, draw: string) returns (k: nat)
    requires target >= 1 && |draw| == DrawLength(target)
    ensures k <= MAX_ITER
    ensures var r := Adjust(target, draw, 'X', 0);
            && Abs(HuffmanLength(r) - target) <= WorstMiss(target)
            && (if HuffmanLength(draw) < target then r == draw + Tail('X', k)
                else k <= |draw| && r == draw[..|draw| - k])
  {
    if HuffmanLength(draw) < target {
      ShortDraw(target, draw);
      k := Appended(target - HuffmanLength(draw), 0);
    } else {
      k := LongDraw(target, draw);
    }
  }

  /** A target of zero or less returns the one character drawn. */
  lemma NoTargetNoChange(target: int, draw: string)
    requires target <= 0 && |draw| == DrawLength(target)
    ensures Adjust(target, draw, 'X', 0) == draw
  {
    BitBounds(draw);
  }

  /** `n` characters of the longest code. */
  function Xs(n: nat): (s: string)
    ensures |s| == n && forall i :: 0 <= i < n ==> s[i] == 'X'
  {
    seq(n, _ => 'X')
  }

  lemma {:induction false} XsLength(n: nat)
    ensures BitLength(Xs(n)) == 8 * n && HuffmanLength(Xs(n)) == n
  {
    if n > 0 {
      XsLength(n - 1);
      assert Xs(n)[..n - 1] == Xs(n - 1);
    }
  }

  lemma {:induction false} XsShrink(target: int, n: nat, iter: nat)
    requires target >= 1 && iter <= MAX_ITER && n >= target + TOLERANCE + (MAX_ITER - iter)
    ensures Adjust(target, Xs(n), 'X', iter) == Xs(n - (MAX_ITER - iter))
    decreases MAX_ITER - iter
  {
    XsLength(n);
    if iter < MAX_ITER {
      assert Xs(n)[..n - 1] == Xs(n - 1);
      XsShrink(target, n - 1, iter + 1);
    }
  }

  ghost predicate AlwaysWithinTolerance(target: int) {
    forall draw :: |draw| == DrawLength(target) && (forall c :: c in draw ==> IsBase62(c)) ==>
      Abs(HuffmanLength(Adjust(target, draw, 'X', 0)) - target) <= TOLERANCE
  }

  lemma XsMiss(target: int)
    requires target > 608
    ensures |Xs(DrawLength(target))| == DrawLength(target)
    ensures HuffmanLength(Adjust(target, Xs(DrawLength(target)), 'X', 0)) - target == WorstMiss(target) > TOLERANCE
  {
    var n := DrawLength(target);
    LongestDraw(target);
    XsShrink(target, n, 0);
    XsLength(n - MAX_ITER);
  }

  /**
   Every base62 draw ends within tolerance exactly for targets up to 608; beyond,
   a draw of X's misses by WorstMiss.
   */
  lemma ToleranceExactlyUpTo608(target: int)
    requires target >= 1
    ensures AlwaysWithinTolerance(target) <==> target <= 608
    ensures target > 608 ==>
              HuffmanLength(Adjust(target, Xs(DrawLength(target)), 'X', 0)) - target == WorstMiss(target) > TOLERANCE
  {
    if target <= 608 {
      forall draw | |draw| == DrawLength(target)
        ensures Abs(HuffmanLength(Adjust(target, draw, 'X', 0)) - target) <= TOLERANCE
      {
        var k := PaddingNearTarget(target, draw);
      }
    } else {
      XsMiss(target);
      var draw := Xs(DrawLength(target));
      assert forall c :: c in draw ==> IsBase62(c);
      assert Abs(HuffmanLength(Adjust(target, draw, 'X', 0)) - target) > TOLERANCE;
    }
  }

  /** The server's test of a tokenish padding against a configured length range. */
  predicate ServerAccepts(padding: string, from: int, to: int) {
    from - TOLERANCE <= HuffmanLength(padding) <= to + TOLERANCE
  }

  ghost predicate ServerAlwaysAccepts(target: int, from: int, to: int) {
    forall draw :: |draw| == DrawLength(target) && (forall c :: c in draw ==> IsBase62(c)) ==>
      ServerAccepts(Adjust(target, draw, 'X', 0), from, to)
  }

  /**
   With the default range 100 to 1000, lengths up to 921 are accepted whatever is
   drawn; longer ones can be refused.
   */
  lemma DefaultRangeAcceptedUpTo921(target: int)
    requires 100 <= target <= 1000
    ensures ServerAlwaysAccepts(target, 100, 1000) <==> target <= 921
  {
    if target <= 921 {
      forall draw | |draw| == DrawLength(target) ensures ServerAccepts(Adjust(target, draw, 'X', 0), 100, 1000) {
        var k := PaddingNearTarget(target, draw);
      }
    } else {
      XsMiss(target);
      var draw := Xs(DrawLength(target));
      assert forall c :: c in draw ==> IsBase62(c);
      assert !ServerAccepts(Adjust(target, draw, 'X', 0), 100, 1000);
    }
  }

  lemma {:induction false} TailIsBase62(adjust: char, n: nat)
    requires adjust == 'X' || adjust == 'Z'
    ensures forall c :: c in Tail(adjust, n) ==> IsBase62(c)
    decreases n
  {
    if n > 0 { TailIsBase62(Other(adjust), n - 1); }
  }

  /** A base62 draw stays base62. */
  lemma PaddingStaysBase62(target: int, draw: string)
    requires target >= 1 && |draw| == DrawLength(target) && forall c :: c in draw ==> IsBase62(c)
    ensures forall c :: c in Adjust(target, draw, 'X', 0) ==> IsBase62(c)
  {
    var k := PaddingNearTarget(target, draw);
    TailIsBase62('X', k);
  }

  // ---- the random draw ----

  /** The random bytes that are kept, mapped into the character set. */
  function Accepted(bytes: seq<nat>, limit: nat, charset: string): string
    requires |charset| > 0
  {
    if bytes == [] then ""
    else if bytes[|bytes| - 1] >= limit then Accepted(bytes[..|bytes| - 1], limit, charset)
    else Accepted(bytes[..|bytes| - 1], limit, charset) + [charset[bytes[|bytes| - 1] % |charset|]]
  }

  /** Bytes at or above the last multiple of the set's size are rejected (the limit is itself a byte). */
  function Limit(m: nat): nat
    requires m > 0
  {
    (256 - 256 % m) % 256
  }

  /** `bytes` is what the random source yields before it fails; None is the source's "" with ok false. */
  method RandStringFromCharset(n: int, charset: string, bytes: seq<nat>) returns (r: Option<string>)
    ensures r.Some? <==> n > 0 && |charset| > 0 && |Accepted(bytes, Limit(|charset|), charset)| >= n
    ensures r.Some? ==> r.value == Accepted(bytes, Limit(|charset|), charset)[..n]
  {
    if n <= 0 || |charset| == 0 { return None; }
    var limit := Limit(|charset|);
    var result := new char[n];
    var i := 0;
    var next := 0;
    while i < n
      invariant 0 <= i <= n && next <= |bytes|
      invariant result[..i] == Accepted(bytes[..next], limit, charset)
      decreases |bytes| - next
    {
      if next == |bytes| {
        assert bytes[..next] == bytes;
        return None;
      }
      assert bytes[..next + 1][..next] == bytes[..next];
      if bytes[next] < limit {
        result[i] := charset[bytes[next] % |charset|];
        i := i + 1;
      }
      next := next + 1;
    }
    AcceptedPrefix(bytes, next, limit, charset);
    assert result[..n] == result[..];
    return Some(result[..]);
  }

  lemma {:induction false} AcceptedPrefix(bytes: seq<nat>, k: nat, limit: nat, charset: string)
    requires |charset| > 0 && k <= |bytes|
    ensures Accepted(bytes[..k], limit, charset) <= Accepted(bytes, limit, charset)
    decreases |bytes|
  {
    if k < |bytes| {
      var front := bytes[..|bytes| - 1];
      AcceptedPrefix(front, k, limit, charset);
      assert front[..k] == bytes[..k];
    } else {
      assert bytes[..k] == bytes;
    }
  }

  /** How many byte values below `limit` select index `k` of a set of size `m`. */
  function Hits(limit: nat, m: nat, k: nat): nat
    requires m > 0
  {
    if limit == 0 then 0 else Hits(limit - 1, m, k) + if (limit - 1) % m == k then 1 else 0
  }

  lemma {:induction false} HitsInPartialRound(q: nat, r: nat, m: nat, k: nat)
    requires r <= m && k < m
    ensures Hits(q * m + r, m, k) == q + if k < r then 1 else 0
    decreases q, r
  {
    if r > 0 {
      HitsInPartialRound(q, r - 1, m, k);
      assert (q * m + (r - 1)) % m == r - 1 by { ModOf(q, r - 1, m); }
    } else if q > 0 {
      HitsInPartialRound(q - 1, m, m, k);
      assert q * m + 0 == (q - 1) * m + m;
    }
  }

  lemma ModOf(q: nat, r: nat, m: nat)
    requires r < m
    ensures (q * m + r) % m == r
  {
    var a := q * m + r;
    var q', r' := a / m, a % m;
    assert a == q' * m + r';
    assert (q - q') * m == r' - r;
    if q > q' { AtLeastOnce(q - q', m); }
    if q < q' { AtLeastOnce(q' - q, m); }
  }

  lemma AtLeastOnce(k: nat, m: nat)
    requires k >= 1
    ensures k * m >= m
  {
    assert k * m == m + (k - 1) * m;
  }

  /**
   The limit is a byte: a set whose size divides 256, or exceeds it, wraps it to
   0 and every random byte is rejected.
   */
  lemma LimitIsZeroWhen(m: nat)
    requires m > 0
    ensures Limit(m) == 0 <==> m > 256 || 256 % m == 0
    ensures Limit(m) > 0 ==> Limit(m) == 256 - 256 % m
  {
    var r := 256 % m;
    assert 0 <= r <= 256 by { if m > 256 { assert r == 256; } }
    assert m <= 256 ==> r < m <= 256;
  }

  /** Rejection sampling is fair: below the limit every character of the set is selected by equally many bytes. */
  lemma DrawIsUniform(m: nat, k: nat)
    requires k < m && Limit(m) > 0
    ensures Hits(Limit(m), m, k) == 256 / m
  {
    LimitIsZeroWhen(m);
    HitsInPartialRound(256 / m, 0, m, k);
    assert Limit(m) == 256 / m * m + 0;
  }

  /** Each byte contributes on its own, in order. */
  lemma {:induction false} AcceptedByteByByte(first: seq<nat>, rest: seq<nat>, limit: nat, charset: string)
    requires |charset| > 0
    ensures Accepted(first + rest, limit, charset) ==
              Accepted(first, limit, charset) + Accepted(rest, limit, charset)
    decreases |rest|
  {
    if rest == [] {
      assert first + rest == first;
    } else {
      var front := rest[..|rest| - 1];
      AcceptedByteByByte(first, front, limit, charset);
      assert (first + rest)[..|first + rest| - 1] == first + front;
    }
  }

  /** How many of the byte values below `n` are drawn as the character `c`. */
  function Selecting(charset: string, c: char, n: nat): nat
    requires |charset| > 0
  {
    if n == 0 then 0
    else Selecting(charset, c, n - 1) + if Accepted([n - 1], Limit(|charset|), charset) == [c] then 1 else 0
  }

  predicate Distinct(charset: string) {
    forall i, j :: 0 <= i < j < |charset| ==> charset[i] != charset[j]
  }

  lemma OneByte(b: nat, charset: string, k: nat)
    requires Distinct(charset) && k < |charset|
    ensures Accepted([b], Limit(|charset|), charset) == [charset[k]] <==> b < Limit(|charset|) && b % |charset| == k
  {
    var limit, m := Limit(|charset|), |charset|;
    assert Accepted([b][..0], limit, charset) == "";
    assert Accepted([b], limit, charset) == if b >= limit then "" else [charset[b % m]];
    if charset[b % m] == charset[k] { assert b % m == k; }
  }

  lemma {:induction false} SelectingIsHits(charset: string, k: nat, n: nat)
    requires Distinct(charset) && k < |charset|
    ensures Selecting(charset, charset[k], n) ==
              Hits(if n < Limit(|charset|) then n else Limit(|charset|), |charset|, k)
    decreases n
  {
    if n > 0 {
      SelectingIsHits(charset, k, n - 1);
      OneByte(n - 1, charset, k);
    }
  }

  /**
   A random byte is drawn as each character of the set with equal chance: 256 / m
   of the 256 byte values select it, whichever it is. When the limit wraps to
   zero none selects any.
   */
  lemma EveryCharacterAlike(charset: string, k: nat)
    requires Distinct(charset) && k < |charset|
    ensures Selecting(charset, charset[k], 256) == if Limit(|charset|) == 0 then 0 else 256 / |charset|
  {
    SelectingIsHits(charset, k, 256);
    LimitIsZeroWhen(|charset|);
    if Limit(|charset|) > 0 { DrawIsUniform(|charset|, k); }
  }
}
