/** Facts about sequence slices, stated for any element type so that a proof using
    them never has to look inside the elements. */
module Seqs {

  /** Growing a prefix by one element appends that element. */
  lemma TakeNext<T>(s: seq<T>, k: nat)
    requires k < |s|
    ensures s[..k + 1] == s[..k] + [s[k]]
  {
    assert s[..k + 1][..k] == s[..k];
  }

  /** The prefix of the full length is the whole sequence. */
  lemma TakeAll<T>(s: seq<T>)
    ensures s[..|s|] == s
  {
  }

  /** The pieces of a sequence made of six, found again at the cut points
      p1 < ... < p5 their lengths give: the pieces b... after p1, the piece c
      between p2 and p3 and what follows it, the piece e between p4 and p5 and
      the last piece f after p5. */
  lemma Pieces<T>(a: seq<T>, b: seq<T>, c: seq<T>, d: seq<T>, e: seq<T>, f: seq<T>,
                  p1: nat, p2: nat, p3: nat, p4: nat, p5: nat)
    requires p1 == |a| && p2 == p1 + |b| && p3 == p2 + |c| && p4 == p3 + |d| && p5 == p4 + |e|
    ensures (a + b + c + d + e + f)[..p1] == a
    ensures (a + b + c + d + e + f)[p1..] == b + (c + d + e + f)
    ensures (a + b + c + d + e + f)[p2..p3] == c
    ensures (a + b + c + d + e + f)[p3..] == d + (e + f)
    ensures (a + b + c + d + e + f)[p4..p5] == e
    ensures (a + b + c + d + e + f)[p5..] == f
  {
    var s := a + b + c + d + e + f;
    assert s == a + (b + (c + d + e + f));
    assert s == (a + b) + c + (d + (e + f));
    assert s == (a + b + c + d) + e + f;
  }

  /** Slot i*w + j of n blocks of width w lies before the end of the last block. */
  lemma {:induction false} SlotBelow(i: nat, j: nat, w: nat, n: nat)
    requires i < n && j < w
    ensures i * w + j < n * w
    decreases n
  {
    assert n * w == (n - 1) * w + w;
    if i < n - 1 {
      SlotBelow(i, j, w, n - 1);
    }
  }
}
