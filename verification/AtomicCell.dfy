// The soft atomic operations of rtatomic.h on one shared word, and its retry loop
// rt_atomic_fetch_add_unless run against a changing environment.
module AtomicCell {
  // rt_atomic_t is a signed 64-bit word; sums wrap around.
  const HALF: int := 0x8000_0000_0000_0000

  type Word = x: int | -HALF <= x < HALF

  function Wrap(x: int): (w: Word)
    ensures -HALF <= x < HALF ==> w == x
    ensures (w - x) % (2 * HALF) == 0
  {
    (x + HALF) % (2 * HALF) - HALF
  }

  // The atomic operation that rt_atomic_fetch_add_unless stands for.
  function AddUnless(value: Word, a: Word, u: Word): Word {
    if value == u then value else Wrap(value + a)
  }

  class Cell {
    var value: Word

    constructor (v: Word)
      ensures value == v
    {
      value := v;
    }

    method Load() returns (v: Word)
      ensures v == value
    {
      v := value;
    }

    method Sub(d: Word) returns (before: Word)
      modifies this
      ensures before == old(value) && value == Wrap(old(value) - d)
    {
      before := value;
      value := Wrap(value - d);
    }

    // The C code passes `expected` by address and overwrites it with the observed value on
    // failure; `observed` is that variable afterwards.
    method CompareExchangeStrong(expected: Word, desired: Word) returns (ok: bool, observed: Word)
      modifies this
      ensures ok <==> old(value) == expected
      ensures value == (if ok then desired else old(value))
      ensures observed == (if ok then expected else old(value))
    {
      if value != expected {
        observed := value;
        ok := false;
      } else {
        observed := expected;
        value := desired;
        ok := true;
      }
    }

    method DecAndTest() returns (last: bool)
      modifies this
      ensures value == Wrap(old(value) - 1)
      ensures last <==> old(value) == 1
    {
      var before := Sub(1);
      last := before == 1;
    }

    // The retry loop under interference: before the k-th compare-exchange the other threads
    // leave others[k] in the cell, and nothing once `others` is used up. The loop ends
    // after finitely many such stores; its effect is one atomic AddUnless on the value the cell held at
    // the last observation; and it went round again only when the others had changed
    // the value since the previous one.
    method FetchAddUnless(a: Word, u: Word, others: seq<Word>) returns (c: Word, retries: nat)
      modifies this
      ensures retries <= |others|
      ensures var seen := [old(value)] + others;
        && (forall k :: 0 <= k < retries ==> seen[k + 1] != seen[k])
        && c == seen[retries]
        && (forall k :: 0 <= k < retries ==> seen[k] != u)
        && value == (if c == u then u else Wrap(c + a))
        && (c != u && retries < |others| ==> others[retries] == c)
    {
      ghost var seen := [value] + others;
      c := Load();
      retries := 0;
      while true
        invariant retries <= |others|
        invariant c == seen[retries] == value
        invariant forall k :: 0 <= k < retries ==> seen[k + 1] != seen[k] && seen[k] != u
        decreases |others| - retries
      {
        if c == u { break; }
        if retries < |others| { value := others[retries]; }
        var ok, observed := CompareExchangeStrong(c, Wrap(c + a));
        if ok { break; }
        c := observed;
        retries := retries + 1;
      }
    }

    method IncNotZero(others: seq<Word>) returns (taken: bool)
      modifies this
      ensures exists k :: 0 <= k <= |others| && var seen := [old(value)] + others;
        && (forall j :: 0 <= j < k ==> seen[j] != 0)
        && (taken <==> seen[k] != 0)
        && value == (if taken then Wrap(seen[k] as int + 1) else 0)
    {
      var c, retries := FetchAddUnless(1, 0, others);
      taken := c != 0;
    }
  }
}
