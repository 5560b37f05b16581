/** Facts about sequences that several proofs need spelled out. */
module Seqs {

  function InsertAt<T>(s: seq<T>, k: nat, x: T): seq<T>
    requires k <= |s|
  {
    s[..k] + [x] + s[k..]
  }

  lemma InsertedAt<T>(s: seq<T>, k: nat, x: T, m: nat)
    requires k <= |s| && m <= |s|
    ensures InsertAt(s, k, x)[m] == if m < k then s[m] else if m == k then x else s[m - 1]
  {
  }

  lemma Assoc<T>(a: seq<T>, b: seq<T>, c: seq<T>)
    ensures (a + b) + c == a + (b + c)
  {
  }

  function Concat<T>(f: nat -> seq<T>, lo: nat, hi: nat): seq<T>
    requires lo <= hi
    decreases hi
  {
    if lo == hi then [] else Concat(f, lo, hi - 1) + f(hi - 1)
  }

  lemma {:induction false} ConcatSplit<T>(f: nat -> seq<T>, lo: nat, mid: nat, hi: nat)
    requires lo <= mid <= hi
    ensures Concat(f, lo, hi) == Concat(f, lo, mid) + Concat(f, mid, hi)
    decreases hi
  {
    if mid < hi {
      ConcatSplit(f, lo, mid, hi - 1);
      Assoc(Concat(f, lo, mid), Concat(f, mid, hi - 1), f(hi - 1));
    }
  }
}
