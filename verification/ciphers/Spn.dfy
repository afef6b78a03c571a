// Substitution-permutation rounds on four words, the common shape of the block
// functions of misc/mbedtls/library/aes.c and aria.c, and the reason why
// decryption can run the same rounds over a transformed key schedule
// (section 5.3.5 of FIPS 197, section 2.3 of RFC 5794).
module Spn {
  import opened Words

  // sub(i, x) is the substitution layer of round i, lin the linear layer.
  datatype Layers = Layers(sub: (nat, Quad) -> Quad, lin: Quad -> Quad)

  // The state after round key i has been mixed in.
  function Rounds(l: Layers, keys: seq<Quad>, i: nat, x: Quad): Quad
    requires i < |keys|
  {
    if i == 0 then XorQuad(x, keys[0]) else XorQuad(l.lin(l.sub(i - 1, Rounds(l, keys, i - 1, x))), keys[i])
  }

  // All rounds; the last one has no linear layer.
  function Run(l: Layers, keys: seq<Quad>, x: Quad): Quad
    requires |keys| >= 2
  {
    var nr := |keys| - 1;
    XorQuad(l.sub(nr - 1, Rounds(l, keys, nr - 1, x)), keys[nr])
  }

  // The schedule for the inverse: keys reversed, the middle ones sent through
  // the linear layer.
  function Inverted(lin: Quad -> Quad, keys: seq<Quad>): (dk: seq<Quad>)
    requires |keys| >= 2
    ensures |dk| == |keys|
  {
    var nr := |keys| - 1;
    seq(nr + 1, j requires 0 <= j <= nr => if j == 0 || j == nr then keys[nr - j] else lin(keys[nr - j]))
  }

  // d's layers take back e's in an nr-round cipher.
  ghost predicate Undoes(d: Layers, e: Layers, nr: nat) {
    SubBack(d, e, nr) && LinBack(d, e) && LinearOverXor(d)
  }

  ghost predicate SubBack(d: Layers, e: Layers, nr: nat) {
    forall i: nat, x: Quad {:trigger e.sub(i, x)} :: i < nr ==> d.sub(nr - 1 - i, e.sub(i, x)) == x
  }

  ghost predicate LinBack(d: Layers, e: Layers) {
    forall x: Quad {:trigger e.lin(x)} :: d.lin(e.lin(x)) == x
  }

  ghost predicate LinearOverXor(d: Layers) {
    forall x: Quad, y: Quad {:trigger d.lin(XorQuad(x, y))} :: d.lin(XorQuad(x, y)) == XorQuad(d.lin(x), d.lin(y))
  }

  // Round j of the inverse starts from the substituted state of round n-1-j.
  lemma {:induction false} RoundsBack(d: Layers, e: Layers, keys: seq<Quad>, j: nat, x: Quad)
    requires |keys| >= 2 && Undoes(d, e, |keys| - 1) && j < |keys| - 1
    ensures var nr := |keys| - 1;
            Rounds(d, Inverted(d.lin, keys), j, Run(e, keys, x)) == e.sub(nr - 1 - j, Rounds(e, keys, nr - 1 - j, x))
  {
    hide XorQuad;
    hide Run;
    hide Rounds;
    hide Inverted;
    var nr := |keys| - 1;
    var i := nr - 1 - j;
    var dk := Inverted(d.lin, keys);
    var y := Rounds(e, keys, i, x);
    if j == 0 {
      FirstRound(d, dk, Run(e, keys, x));
      InvertedAt(d.lin, keys, 0);
      LastRound(e, keys, x);
      XorQuadTwice(e.sub(nr - 1, y), keys[nr]);
    } else {
      RoundsBack(d, e, keys, j - 1, x);
      var z := Rounds(e, keys, i + 1, x);
      assert d.sub(j - 1, e.sub(i + 1, z)) == z;
      InvertedAt(d.lin, keys, j);
      NextRound(d, dk, j, Run(e, keys, x));
      NextRound(e, keys, i + 1, x);
      var t := e.lin(e.sub(i, y));
      XorQuadTwice(t, keys[i + 1]);
      assert d.lin(XorQuad(z, keys[i + 1])) == XorQuad(d.lin(z), d.lin(keys[i + 1]));
    }
  }

  lemma {:induction false} InvertedAt(lin: Quad -> Quad, keys: seq<Quad>, j: nat)
    requires 2 <= |keys| && j < |keys|
    ensures var nr := |keys| - 1; Inverted(lin, keys)[j] == if j == 0 || j == nr then keys[nr - j] else lin(keys[nr - j])
  {
  }

  lemma {:induction false} NextRound(l: Layers, keys: seq<Quad>, i: nat, x: Quad)
    requires 0 < i < |keys|
    ensures Rounds(l, keys, i, x) == XorQuad(l.lin(l.sub(i - 1, Rounds(l, keys, i - 1, x))), keys[i])
  {
    hide XorQuad;
  }

  lemma {:induction false} LastRound(l: Layers, keys: seq<Quad>, x: Quad)
    requires |keys| >= 2
    ensures var nr := |keys| - 1; Run(l, keys, x) == XorQuad(l.sub(nr - 1, Rounds(l, keys, nr - 1, x)), keys[nr])
  {
    hide XorQuad;
    hide Rounds;
  }

  // The inverse rounds under the inverted schedule undo the rounds.
  lemma {:induction false} RunBack(d: Layers, e: Layers, keys: seq<Quad>, x: Quad)
    requires |keys| >= 2 && Undoes(d, e, |keys| - 1)
    ensures Run(d, Inverted(d.lin, keys), Run(e, keys, x)) == x
  {
    hide XorQuad;
    hide Rounds;
    hide Run;
    var nr := |keys| - 1;
    var dk := Inverted(d.lin, keys);
    var y := Run(e, keys, x);
    var z := Rounds(e, keys, 0, x);
    RoundsBack(d, e, keys, nr - 1, x);
    LastRound(d, dk, y);
    assert d.sub(nr - 1, e.sub(0, z)) == z;
    FirstRound(e, keys, x);
    XorQuadTwice(x, keys[0]);
  }

  lemma {:induction false} FirstRound(l: Layers, keys: seq<Quad>, x: Quad)
    requires |keys| >= 1
    ensures Rounds(l, keys, 0, x) == XorQuad(x, keys[0])
  {
  }

  // Inverting the schedule twice gives it back.
  lemma {:induction false} InvertedTwice(d: Layers, e: Layers, keys: seq<Quad>)
    requires |keys| >= 2 && Undoes(e, d, |keys| - 1)
    ensures Inverted(e.lin, Inverted(d.lin, keys)) == keys
  {
    var nr := |keys| - 1;
    var dk := Inverted(d.lin, keys);
    forall j | 0 <= j <= nr ensures Inverted(e.lin, dk)[j] == keys[j] {
      assert dk[nr - j] == if j == 0 || j == nr then keys[j] else d.lin(keys[j]);
    }
  }

  // And the rounds undo the inverse rounds.
  lemma {:induction false} RunForth(d: Layers, e: Layers, keys: seq<Quad>, y: Quad)
    requires |keys| >= 2 && Undoes(e, d, |keys| - 1)
    ensures Run(e, keys, Run(d, Inverted(d.lin, keys), y)) == y
  {
    InvertedTwice(d, e, keys);
    RunBack(e, d, Inverted(d.lin, keys), y);
  }
}
