/** The reference counts the JavaScript side keeps for every EM_VAL handle,
    as the native side changes them through _emval_incref and _emval_decref. */
module Refcount {

  /** An EM_VAL: an entry of the foreign handle table. 0 is the sentinel a
      moved-from `val` holds. */
  type Handle = nat

  /** The foreign count of each live handle; a handle missing from the map has
      been released by the foreign side. */
  type Counts = map<Handle, nat>

  function Count(m: Counts, h: Handle): nat
  {
    if h in m then m[h] else 0
  }

  /** Every entry is a real handle with a positive count: an entry that drops
      to zero is released. */
  ghost predicate Positive(m: Counts)
  {
    forall h :: h in m ==> h != 0 && m[h] > 0
  }

  /** A handle the native side may pass to _emval_incref or _emval_decref:
      the sentinel or a handle whose count is still held. */
  predicate Live(m: Counts, h: Handle)
  {
    h == 0 || Count(m, h) > 0
  }

  /** _emval_incref. Its body is JavaScript; this model assumes that the
      sentinel 0 is ignored and every other live handle gains one count. */
  function Incref(m: Counts, h: Handle): (r: Counts)
    requires Live(m, h)
    ensures forall x :: Count(r, x) == Count(m, x) + (if x == h && h != 0 then 1 else 0)
    ensures Positive(m) ==> Positive(r)
    ensures Live(r, h)
  {
    if h == 0 then m else m[h := m[h] + 1]
  }

  /** _emval_decref. Its body is JavaScript; this model assumes that the
      sentinel 0 is ignored (the destructor of a moved-from `val` calls it
      unconditionally), and that a handle whose count reaches zero is released. */
  function Decref(m: Counts, h: Handle): (r: Counts)
    requires Live(m, h)
    ensures forall x :: Count(r, x) == Count(m, x) - (if x == h && h != 0 then 1 else 0)
    ensures Positive(m) ==> Positive(r)
    ensures h != 0 && Count(m, h) == 1 ==> h !in r
  {
    if h == 0 then m
    else if m[h] == 1 then m - {h}
    else m[h := m[h] - 1]
  }

  /** Two well-formed count maps that agree on every handle are the same map. */
  lemma {:induction false} SameCountsSameMap(a: Counts, b: Counts)
    requires Positive(a) && Positive(b)
    requires forall x :: Count(a, x) == Count(b, x)
    ensures a == b
  {
    forall x | x in a
      ensures x in b && a[x] == b[x]
    {
      assert Count(a, x) == a[x];
    }
    forall x | x in b
      ensures x in a
    {
      assert Count(b, x) == b[x];
    }
  }

  /** An increment followed by a decrement of the same handle restores every
      count: the net-zero step behind copy-then-destroy and `x = x`. */
  lemma {:induction false} IncrefThenDecref(m: Counts, h: Handle)
    requires Positive(m) && Live(m, h)
    ensures Decref(Incref(m, h), h) == m
  {
    var r := Decref(Incref(m, h), h);
    forall x ensures Count(r, x) == Count(m, x) { }
    SameCountsSameMap(r, m);
  }

  /** The order copy-assignment avoids: decrementing the old handle first
      releases a value held once, after which it can no longer be incremented. */
  lemma DecrefFirstReleases(m: Counts, h: Handle)
    requires h != 0 && Count(m, h) == 1
    ensures !Live(Decref(m, h), h)
  {
  }

  /** A handle the foreign side has just created enters at count 1;
      decrementing it once releases it and leaves every other count as it was. */
  lemma {:induction false} FreshThenDecref(m: Counts, h: Handle)
    requires Positive(m) && h != 0 && h !in m
    ensures Live(m[h := 1], h)
    ensures Decref(m[h := 1], h) == m
  {
    var r := Decref(m[h := 1], h);
    assert Count(m[h := 1], h) == 1;
    forall x ensures Count(r, x) == Count(m, x) {
      if x != h {
        assert Count(m[h := 1], x) == Count(m, x);
      }
    }
    SameCountsSameMap(r, m);
  }
}
