/** Day 25: the door and the card each publish `7^loop mod 20201227` for a
    secret loop size. The loop size is recovered by search, and the shared
    encryption key is the other side's public key transformed by it. */
module Day25 {
  import opened Text
  import opened Arith

  const Modulus: nat := 20201227
  const Subject: nat := 7

  datatype Input = Input(cardPublicKey: nat, doorPublicKey: nat)

  /** `str::trim_end`: the text without its trailing white space. */
  function TrimEnd(s: string): (r: string)
    ensures |r| <= |s| && r == s[..|r|]
    ensures r == [] || !IsSpace(r[|r| - 1])
    ensures forall i :: |r| <= i < |s| ==> IsSpace(s[i])
  {
    if s == [] || !IsSpace(s[|s| - 1]) then s else TrimEnd(s[..|s| - 1])
  }

  /** `parse`: two numbers on the first two lines; `None` where an `unwrap` panics. */
  function Parse(input: string): (r: Option<Input>)
  {
    match SplitOnce(TrimEnd(input), "\n")
    case None => None
    case Some((card, door)) =>
      match (ParseNat(card), ParseNat(door))
      case (Some(c), Some(d)) => Some(Input(c, d))
      case _ => None
  }

  /** The input file holding two public keys. */
  function Show(input: Input): string
  {
    ShowNat(input.cardPublicKey) + "\n" + ShowNat(input.doorPublicKey) + "\n"
  }

  /** A written input reads back. */
  lemma ParseShow(input: Input)
    ensures Parse(Show(input)) == Some(input)
  {
    var c, d := ShowNat(input.cardPublicKey), ShowNat(input.doorPublicKey);
    assert Show(input) == (c + "\n" + d) + "\n";
    assert TrimEnd(Show(input)) == c + "\n" + d;
    assert '\n' !in c by {
      forall i | 0 <= i < |c| ensures c[i] != '\n' {
        assert IsDigit(c[i]);
      }
    }
    SplitOnceAt(c, "\n", d);
    ParseShowNat(input.cardPublicKey);
    ParseShowNat(input.doorPublicKey);
  }

  function Pow(b: nat, e: nat): nat
  {
    if e == 0 then 1 else b * Pow(b, e - 1)
  }

  lemma {:induction false} PowAdd(b: nat, x: nat, y: nat)
    ensures Pow(b, x + y) == Pow(b, x) * Pow(b, y)
  {
    if y > 0 {
      PowAdd(b, x, y - 1);
      assert Pow(b, x + y) == b * Pow(b, x + y - 1);
    }
  }

  lemma {:induction false} PowMul(b: nat, x: nat, y: nat)
    ensures Pow(Pow(b, x), y) == Pow(b, x * y)
  {
    if y > 0 {
      PowMul(b, x, y - 1);
      PowAdd(b, x, x * (y - 1));
      assert x + x * (y - 1) == x * y;
    }
  }

  /** The base may be reduced before raising to a power. */
  lemma {:induction false} PowMod(b: nat, e: nat, m: nat)
    requires m > 0
    ensures Pow(b, e) % m == Pow(b % m, e) % m
  {
    if e > 0 {
      var x, y := Pow(b, e - 1), Pow(b % m, e - 1);
      PowMod(b, e - 1, m);
      calc {
        Pow(b, e) % m;
        (x * b) % m;
        { MulMod(x, b, m); }
        ((x % m) * b) % m;
        ((y % m) * b) % m;
        { MulMod(y, b, m); }
        (b * y) % m;
        { MulMod(b, y, m); }
        ((b % m) * y) % m;
      }
    }
  }

  /** The value `find_key` returns after `k` steps: the subject itself after
      one step, then one more multiplication by the subject modulo `m` per step. */
  function Transform(s: nat, m: nat, k: nat): (x: nat)
    requires m > 0 && k >= 1
    ensures k > 1 ==> x < m
  {
    if k == 1 then s else Transform(s, m, k - 1) * s % m
  }

  /** For a subject below the modulus, `k` steps compute `s^k mod m`. */
  lemma {:induction false} TransformPow(s: nat, m: nat, k: nat)
    requires s < m && k >= 1
    ensures Transform(s, m, k) == Pow(s, k) % m
  {
    if k > 1 {
      TransformPow(s, m, k - 1);
      MulMod(Pow(s, k - 1), s, m);
      assert Pow(s, k) == Pow(s, k - 1) * s;
    }
  }

  /** `k` is the loop size `find_loop_size` returns: the least `k >= 1` whose
      transform is the public key. */
  predicate IsLoopSize(s: nat, m: nat, publicKey: nat, k: nat)
    requires m > 0
  {
    k >= 1 && Transform(s, m, k) == publicKey &&
    forall j :: 1 <= j < k ==> Transform(s, m, j) != publicKey
  }

  /** There is at most one loop size. */
  lemma LoopSizeUnique(s: nat, m: nat, publicKey: nat, k1: nat, k2: nat)
    requires m > 0 && IsLoopSize(s, m, publicKey, k1) && IsLoopSize(s, m, publicKey, k2)
    ensures k1 == k2
  {
  }

  /** `find_loop_size`: count steps until the public key appears. The source
      loops forever when it never appears; `bound` is a step count at which
      it does. */
  method FindLoopSize(subject: nat, modulus: nat, publicKey: nat, ghost bound: nat) returns (loopSize: nat)
    requires modulus > 0 && bound >= 1 && Transform(subject, modulus, bound) == publicKey
    ensures loopSize <= bound && IsLoopSize(subject, modulus, publicKey, loopSize)
  {
    loopSize := 1;
    var x := subject;
    while x != publicKey
      invariant 1 <= loopSize <= bound && x == Transform(subject, modulus, loopSize)
      invariant forall j :: 1 <= j < loopSize ==> Transform(subject, modulus, j) != publicKey
      decreases bound - loopSize
    {
      x := x * subject;
      x := x % modulus;
      loopSize := loopSize + 1;
    }
  }

  /** `find_key`: `loop_size` steps of the transform. A loop size of 0 makes
      the source's counter underflow, so it is excluded. */
  method FindKey(subject: nat, modulus: nat, loopSize: nat) returns (x: nat)
    requires modulus > 0 && loopSize >= 1
    ensures x == Transform(subject, modulus, loopSize)
  {
    x := subject;
    var left := loopSize;
    while left != 1
      invariant 1 <= left <= loopSize
      invariant x == Transform(subject, modulus, loopSize - left + 1)
    {
      x := x * subject;
      x := x % modulus;
      left := left - 1;
    }
  }

  /** A found loop size transforms the subject back into the public key
      (the round trip the source's tests check). */
  method RoundTrip(subject: nat, modulus: nat, publicKey: nat, ghost bound: nat) returns (key: nat)
    requires modulus > 0 && bound >= 1 && Transform(subject, modulus, bound) == publicKey
    ensures key == publicKey
  {
    var loopSize := FindLoopSize(subject, modulus, publicKey, bound);
    key := FindKey(subject, modulus, loopSize);
  }

  /** `part_1`: the card's public key transformed by the door's loop size.
      `bound` is a step count at which the door's key appears. */
  method Part1(input: Input, ghost bound: nat) returns (key: nat)
    requires bound >= 1 && Transform(Subject, Modulus, bound) == input.doorPublicKey
    ensures exists k: nat ::
      && k <= bound && IsLoopSize(Subject, Modulus, input.doorPublicKey, k)
      && key == Transform(input.cardPublicKey, Modulus, k)
  {
    var doorLoopSize := FindLoopSize(Subject, Modulus, input.doorPublicKey, bound);
    key := FindKey(input.cardPublicKey, Modulus, doorLoopSize);
  }

  /** Both sides derive the same encryption key: the card's public key
      transformed by the door's loop size equals the door's public key
      transformed by the card's. */
  lemma SharedKey(s: nat, m: nat, card: nat, door: nat, c: nat, d: nat)
    requires s < m && IsLoopSize(s, m, card, c) && IsLoopSize(s, m, door, d)
    ensures Transform(card, m, d) == Transform(door, m, c)
  {
    TransformPow(s, m, c);
    TransformPow(s, m, d);
    assert card < m && door < m;
    TransformPow(card, m, d);
    TransformPow(door, m, c);
    PowMod(Pow(s, c), d, m);
    PowMod(Pow(s, d), c, m);
    PowMul(s, c, d);
    PowMul(s, d, c);
    assert c * d == d * c;
  }

  const ExampleInput: Input := Input(5764801, 17807724)

  /** The subject's transforms for one to eleven steps. */
  lemma ExampleTransforms(j: nat)
    requires 1 <= j <= 11
    ensures Transform(Subject, Modulus, j) ==
      [7, 49, 343, 2401, 16807, 117649, 823543, 5764801, 20152380, 19859298, 17807724][j - 1]
  {
    if j > 1 {
      ExampleTransforms(j - 1);
    }
  }

  /** The example's loop sizes are 8 and 11. */
  lemma ExampleLoopSizes()
    ensures IsLoopSize(Subject, Modulus, 5764801, 8)
    ensures IsLoopSize(Subject, Modulus, 17807724, 11)
  {
    forall j | 1 <= j <= 11 ensures Transform(Subject, Modulus, j) ==
      [7, 49, 343, 2401, 16807, 117649, 823543, 5764801, 20152380, 19859298, 17807724][j - 1]
    {
      ExampleTransforms(j);
    }
  }

  /** The card's key after eleven steps is the example's encryption key. */
  lemma ExampleKey()
    ensures Transform(5764801, Modulus, 11) == 14897079
  {
    assert Transform(5764801, Modulus, 1) == 5764801;
    assert Transform(5764801, Modulus, 2) == 13239263;
    assert Transform(5764801, Modulus, 3) == 6286092;
    assert Transform(5764801, Modulus, 4) == 17588834;
    assert Transform(5764801, Modulus, 5) == 8144799;
    assert Transform(5764801, Modulus, 6) == 19339482;
    assert Transform(5764801, Modulus, 7) == 16501187;
    assert Transform(5764801, Modulus, 8) == 16669039;
    assert Transform(5764801, Modulus, 9) == 11273191;
    assert Transform(5764801, Modulus, 10) == 12070132;
    assert Transform(5764801, Modulus, 11) == 14897079;
  }

  /** The source's tests: loop sizes 8 and 11, and the transforms back. */
  method ExampleSimple() returns (card: nat, door: nat, cardKey: nat, doorKey: nat)
    ensures card == 8 && door == 11 && cardKey == 5764801 && doorKey == 17807724
  {
    ExampleLoopSizes();
    card := FindLoopSize(Subject, Modulus, 5764801, 8);
    door := FindLoopSize(Subject, Modulus, 17807724, 11);
    LoopSizeUnique(Subject, Modulus, 5764801, card, 8);
    LoopSizeUnique(Subject, Modulus, 17807724, door, 11);
    cardKey := FindKey(Subject, Modulus, card);
    doorKey := FindKey(Subject, Modulus, door);
  }

  /** `part_1` on the example gives 14897079. */
  method ExamplePart1() returns (key: nat)
    ensures key == 14897079
  {
    ExampleLoopSizes();
    key := Part1(ExampleInput, 11);
    var k :| k <= 11 && IsLoopSize(Subject, Modulus, ExampleInput.doorPublicKey, k) &&
      key == Transform(ExampleInput.cardPublicKey, Modulus, k);
    LoopSizeUnique(Subject, Modulus, 17807724, k, 11);
    ExampleKey();
  }
}
