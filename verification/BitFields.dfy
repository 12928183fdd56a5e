/** Shifts on naturals, and small fields packed side by side into one number. Or-ing a field into bits that are
    still zero is adding it, which is how the program gathers its indices. A number gathered from fields of one
    width is taken apart from its low end: the first field is the low bits, and shifting it away leaves the
    number gathered from the others. */
module BitFields {

  /** n << k */
  function Shl(n: nat, k: nat): nat {
    if k == 0 then n else 2 * Shl(n, k - 1)
  }

  /** n >> k */
  function Shr(n: nat, k: nat): nat {
    if k == 0 then n else Shr(n / 2, k - 1)
  }

  /** The fields, each w bits wide, the first in the lowest bits. */
  function Pack(fields: seq<nat>, w: nat): nat {
    if fields == [] then 0
    else Pack(fields[..|fields| - 1], w) + Shl(fields[|fields| - 1], w * (|fields| - 1))
  }

  /** n & ((1 << k) - 1) */
  function Low(n: nat, k: nat): (m: nat)
    ensures m < Shl(1, k)
  {
    if k == 0 then 0 else n % 2 + 2 * Low(n / 2, k - 1)
  }

  /** (n >> (w * i)) & ((1 << w) - 1) */
  function Field(n: nat, w: nat, i: nat): (f: nat)
    ensures f < Shl(1, w)
  {
    Low(Shr(n, w * i), w)
  }

  lemma {:induction false} ShlAdds(a: nat, b: nat, k: nat)
    ensures Shl(a + b, k) == Shl(a, k) + Shl(b, k)
    decreases k
  {
    if k > 0 {
      ShlAdds(a, b, k - 1);
    }
  }

  lemma {:induction false} ShlTwice(n: nat, j: nat, k: nat)
    ensures Shl(Shl(n, j), k) == Shl(n, j + k)
    decreases k
  {
    if k > 0 {
      ShlTwice(n, j, k - 1);
    }
  }

  lemma {:induction false} ShrTwice(n: nat, j: nat, k: nat)
    ensures Shr(Shr(n, j), k) == Shr(n, j + k)
    decreases j
  {
    if j > 0 {
      ShrTwice(n / 2, j - 1, k);
    }
  }

  /** The low bits of a number and the rest of it. */
  lemma {:induction false} LowAndHigh(x: nat, n: nat, w: nat)
    requires x < Shl(1, w)
    ensures Shr(x + Shl(n, w), w) == n
    ensures Low(x + Shl(n, w), w) == x
    decreases w
  {
    if w > 0 {
      var y := x + Shl(n, w);
      assert y / 2 == x / 2 + Shl(n, w - 1) && y % 2 == x % 2;
      LowAndHigh(x / 2, n, w - 1);
    }
  }

  lemma {:induction false} PackFront(fields: seq<nat>, w: nat)
    requires fields != []
    ensures Pack(fields, w) == fields[0] + Shl(Pack(fields[1..], w), w)
    decreases |fields|
  {
    var n := |fields| - 1;
    if n == 0 {
      ShlTwice(0, 0, w);
      ZeroStays(w);
    } else {
      var init, y := fields[..n], fields[n];
      PackFront(init, w);
      assert init[1..] == fields[1..][..n - 1];
      ShlAdds(Pack(init[1..], w), Shl(y, w * (n - 1)), w);
      ShlTwice(y, w * (n - 1), w);
      assert w * (n - 1) + w == w * n;
    }
  }

  lemma {:induction false} ZeroStays(k: nat)
    ensures Shl(0, k) == 0
  {
    if k > 0 {
      ZeroStays(k - 1);
    }
  }

  /** Each field is read back from where it was packed. */
  lemma {:induction false} FieldsReadBack(fields: seq<nat>, w: nat, i: nat)
    requires i < |fields| && forall j :: 0 <= j < |fields| ==> fields[j] < Shl(1, w)
    ensures Field(Pack(fields, w), w, i) == fields[i]
    decreases |fields|
  {
    hide Pack, Shl, Shr, Low;
    var n := Pack(fields, w);
    PackFront(fields, w);
    LowAndHigh(fields[0], Pack(fields[1..], w), w);
    if i == 0 {
      ShrNone(n, w);
    } else {
      FieldsReadBack(fields[1..], w, i - 1);
      ShrTwice(n, w, w * (i - 1));
      assert w + w * (i - 1) == w * i;
    }
  }

  lemma {:induction false} ShrNone(n: nat, w: nat)
    ensures Shr(n, w * 0) == n
  {
    assert w * 0 == 0;
  }

  /** What fields of w bits pack into. */
  lemma {:induction false} PackFits(fields: seq<nat>, w: nat)
    requires forall j :: 0 <= j < |fields| ==> fields[j] < Shl(1, w)
    ensures Pack(fields, w) < Shl(1, w * |fields|)
    decreases |fields|
  {
    hide Pack, Shl;
    if fields == [] {
      Nothing(w);
    } else {
      var rest := Pack(fields[1..], w);
      PackFront(fields, w);
      PackFits(fields[1..], w);
      ShlMonotone(rest + 1, Shl(1, w * (|fields| - 1)), w);
      ShlAdds(rest, 1, w);
      ShlTwice(1, w * (|fields| - 1), w);
      assert w * (|fields| - 1) + w == w * |fields|;
    }
  }

  lemma {:induction false} Nothing(w: nat)
    ensures Pack([], w) == 0 < Shl(1, w * 0)
  {
    assert w * 0 == 0;
  }

  lemma {:induction false} ShlMonotone(a: nat, b: nat, k: nat)
    requires a <= b
    ensures Shl(a, k) <= Shl(b, k)
    decreases k
  {
    if k > 0 {
      ShlMonotone(a, b, k - 1);
    }
  }
}
