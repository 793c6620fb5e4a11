/** Shared vocabulary: optional values, the f32 bit patterns the engine compares and copies, sequences and arithmetic. */
module Options {
  datatype Option<+T> = None | Some(value: T)
}

/**
 An `f32` is represented by its total-order key: the signed integer that `f32::total_cmp`
 compares (the bit pattern read as `i32`, its low 31 bits flipped when the sign bit is set).
 The map from bit patterns to keys is a bijection, so a key *is* a bit pattern, NaN payloads
 and the sign of zero included, and comparing keys is the totalOrder predicate of section 5.10
 of IEEE 754-2019.
 */
module Floats {
  type F32 = key: int | -0x8000_0000 <= key < 0x8000_0000

  const NEG_ZERO: F32 := -1
  const POS_ZERO: F32 := 0
  const POS_INF: F32 := 0x7F80_0000
  const NEG_INF: F32 := -0x7F80_0001

  predicate IsNan(x: F32) { x < NEG_INF || x > POS_INF }

  predicate IsFinite(x: F32) { NEG_INF < x < POS_INF }

  /** The IEEE `>` operator: false on NaN, and the two zeros are equal. */
  predicate Gt(x: F32, y: F32) {
    !IsNan(x) && !IsNan(y) && x > y && !(x == POS_ZERO && y == NEG_ZERO)
  }
}

/** Machine integers: the spans of `u32` and of `u64` and `usize`, and a byte. */
module Machine {
  const U32_SPAN: nat := 0x1_0000_0000
  const U64_SPAN: nat := 0x1_0000_0000_0000_0000

  type Byte = b: int | 0 <= b < 256
}

/** Small arithmetic, spelled out where the verifier needs it. */
module Arithmetic {
  function Min(a: nat, b: nat): nat { if a < b then a else b }

  function Max(a: nat, b: nat): nat { if a < b then b else a }

  function Abs(x: real): real { if x < 0.0 then -x else x }

  function CeilDiv(a: nat, b: nat): nat
    requires b > 0
  {
    (a + b - 1) / b
  }

  /** The fewest parts of size `b` that cover `a`. */
  lemma CeilDivIsLeast(a: nat, b: nat, n: nat)
    requires b > 0
    ensures n >= CeilDiv(a, b) <==> n * b >= a
  {
    var m := a + b - 1;
    var q, r := m / b, m % b;
    assert m == q * b + r;
    if n >= q {
      MulMonotone(q, n, b);
    } else {
      MulMonotone(n + 1, q, b);
      assert (n + 1) * b == n * b + b;
    }
  }

  lemma MulMonotone(a: nat, b: nat, c: nat)
    requires a <= b
    ensures a * c <= b * c
  {
  }

  lemma Quotient(x: nat, base: nat, low: nat, high: nat)
    requires base > 0 && low < base && x == high * base + low
    ensures x / base == high && x % base == low
  {
    var q := x / base - high;
    assert q * base == low - x % base;
    assert q >= 1 ==> q * base >= base;
    assert q <= -1 ==> q * base + base <= 0;
  }
}

/** Sequences without repetitions, and multisets. */
module Sequences {
  ghost predicate Distinct<T>(s: seq<T>) { forall i, j :: 0 <= i < j < |s| ==> s[i] != s[j] }

  function Elements<T(==)>(s: seq<T>): set<T> { set x | x in s }

  lemma ElementsOneMore<T>(s: seq<T>, x: T)
    ensures Elements(s + [x]) == Elements(s) + {x}
  {
  }

  /** A set of the elements is as large as the list exactly when none repeats. */
  lemma {:induction false} DistinctBySize<T>(s: seq<T>)
    ensures |Elements(s)| <= |s|
    ensures |Elements(s)| == |s| <==> Distinct(s)
  {
    if s != [] {
      var front, last := s[..|s| - 1], s[|s| - 1];
      DistinctBySize(front);
      assert s == front + [last];
      assert Elements(s) == Elements(front) + {last};
      if last in front {
        assert Elements(s) == Elements(front);
        var k :| 0 <= k < |front| && front[k] == last;
        assert s[k] == s[|front|];
      } else {
        assert |Elements(s)| == |Elements(front)| + 1;
        assert Distinct(front) ==> Distinct(s);
      }
    }
  }

  lemma OccursTwice<T>(s: seq<T>, i: nat, j: nat)
    requires i < j < |s| && s[i] == s[j]
    ensures multiset(s)[s[i]] >= 2
  {
    assert s == s[..j] + [s[j]] + s[j + 1..];
    assert s[i] in s[..j];
  }

  lemma Cancel<T>(a: multiset<T>, b: multiset<T>, c: multiset<T>)
    requires a + c == b + c
    ensures a == b
  {
    assert a == (a + c) - c;
    assert b == (b + c) - c;
  }
}
