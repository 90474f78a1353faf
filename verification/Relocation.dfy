/** Which members a churn event relocates (src/relocation.rs): the oldest joined members whose age
    divides, as a power of two, the event's signature.
 */
module Relocation {
  import opened Prefixes
  import opened Messaging
  import opened Sequences

  type Byte = b: int | 0 <= b < 256

  const MAX_AGE: nat := 255

  function Pow2(n: nat): (r: nat)
    ensures r > 0
  {
    if n == 0 then 1 else 2 * Pow2(n - 1)
  }

  /** The number a byte string stands for, most significant byte first. */
  function Value(bytes: seq<Byte>): nat {
    if bytes == [] then 0 else Value(bytes[..|bytes| - 1]) * 256 + bytes[|bytes| - 1]
  }

  function ByteTrailingZeros(b: nat): nat
    requires b > 0
  {
    if b % 2 == 1 then 0 else 1 + ByteTrailingZeros(b / 2)
  }

  /** Scans from the last byte and stops at the first byte that is not zero. */
  method TrailingZeros(bytes: seq<Byte>) returns (output: nat)
    ensures output <= 8 * |bytes|
    ensures forall k: nat :: k <= 8 * |bytes| ==> (k <= output <==> Value(bytes) % Pow2(k) == 0)
    ensures output == ZeroBits(bytes)
  {
    output := 0;
    var i := |bytes|;
    assert bytes[..i] == bytes;
    while i > 0
      invariant 0 <= i <= |bytes|
      invariant output == 8 * (|bytes| - i)
      invariant ZeroBits(bytes) == output + ZeroBits(bytes[..i])
    {
      i := i - 1;
      assert bytes[..i + 1][..i] == bytes[..i];
      if bytes[i] == 0 {
        output := output + 8;
      } else {
        output := output + ByteTrailingZeros(bytes[i]);
        break;
      }
    }
    ZeroBitsBound(bytes);
    forall k: nat | k <= 8 * |bytes| ensures k <= output <==> Value(bytes) % Pow2(k) == 0 {
      ZeroBitsIsDivisibility(bytes, k);
    }
  }

  function ZeroBits(bytes: seq<Byte>): nat {
    if bytes == [] then 0
    else
      var last := bytes[|bytes| - 1];
      if last == 0 then 8 + ZeroBits(bytes[..|bytes| - 1]) else ByteTrailingZeros(last)
  }

  /** Whether a member of the given age is a candidate for relocation. */
  predicate Check(age: nat, signature: seq<Byte>) {
    ZeroBits(signature) >= age
  }

  // Divisibility by a power of two, halving step by step.

  predicate Halves(v: nat, k: nat) {
    k == 0 || (v % 2 == 0 && Halves(v / 2, k - 1))
  }

  lemma {:induction false} HalvesIsModulus(v: nat, k: nat)
    ensures Halves(v, k) <==> v % Pow2(k) == 0
    decreases k
  {
    if k > 0 {
      HalvesIsModulus(v / 2, k - 1);
      ModOfDouble(v, Pow2(k - 1));
    }
  }

  lemma ModOfDouble(v: nat, m: nat)
    requires m > 0
    ensures v % (2 * m) == 0 <==> v % 2 == 0 && (v / 2) % m == 0
  {
    var h, q, r := v / 2, v / 2 / m, v / 2 % m;
    assert h == m * q + r;
    assert v == (2 * m) * q + (2 * r + v % 2);
    ModUnique(v, 2 * m, q, 2 * r + v % 2);
  }

  lemma ModUnique(v: nat, d: nat, q: nat, r: nat)
    requires d > 0 && v == d * q + r && r < d
    ensures v % d == r
  {
    var q', r' := v / d, v % d;
    assert v == d * q' + r' && 0 <= r' < d;
    assert d * (q - q') == r' - r;
    MulBound(d, q - q');
  }

  lemma MulBound(d: int, x: int)
    requires d >= 0
    ensures x >= 1 ==> d * x >= d
    ensures x <= -1 ==> d * x <= -d
  {
  }

  /** A whole zero part of `w` bits divides `w` times. */
  lemma {:induction false} HalvesShifted(v: nat, w: nat, k: nat)
    ensures Halves(v * Pow2(w), k) <==> k <= w || Halves(v, k - w)
    decreases w
  {
    if w > 0 && k > 0 {
      assert v * Pow2(w) == 2 * (v * Pow2(w - 1));
      HalvesShifted(v, w - 1, k - 1);
    }
  }

  /** A part that is not zero divides as often as it has trailing zeros, whatever stands before it. */
  lemma {:induction false} HalvesNonzero(v: nat, b: nat, w: nat, k: nat)
    requires 0 < b < Pow2(w)
    ensures Halves(v * Pow2(w) + b, k) <==> k <= ByteTrailingZeros(b)
    ensures ByteTrailingZeros(b) < w
    decreases w
  {
    assert w > 0;
    assert v * Pow2(w) + b == 2 * (v * Pow2(w - 1)) + b;
    if b % 2 == 0 {
      HalvesNonzero(v, b / 2, w - 1, if k > 0 then k - 1 else 0);
      assert (v * Pow2(w) + b) / 2 == v * Pow2(w - 1) + b / 2;
    }
  }

  lemma Pow2Of8()
    ensures Pow2(8) == 256
  {
  }

  lemma {:induction false} ZeroBitsBound(bytes: seq<Byte>)
    ensures ZeroBits(bytes) <= 8 * |bytes|
  {
    if bytes != [] {
      ZeroBitsBound(bytes[..|bytes| - 1]);
      if bytes[|bytes| - 1] != 0 {
        Pow2Of8();
        HalvesNonzero(0, bytes[|bytes| - 1], 8, 0);
      }
    }
  }

  lemma {:induction false} ZeroBitsHalve(bytes: seq<Byte>, k: nat)
    requires k <= 8 * |bytes|
    ensures k <= ZeroBits(bytes) <==> Halves(Value(bytes), k)
  {
    if bytes != [] {
      var front, last := bytes[..|bytes| - 1], bytes[|bytes| - 1];
      Pow2Of8();
      if last == 0 {
        HalvesShifted(Value(front), 8, k);
        if k > 8 {
          ZeroBitsHalve(front, k - 8);
        }
      } else {
        HalvesNonzero(Value(front), last, 8, k);
      }
    }
  }

  lemma ZeroBitsIsDivisibility(bytes: seq<Byte>, k: nat)
    requires k <= 8 * |bytes|
    ensures k <= ZeroBits(bytes) <==> Value(bytes) % Pow2(k) == 0
  {
    ZeroBitsHalve(bytes, k);
    HalvesIsModulus(Value(bytes), k);
  }

  lemma {:induction false} ValueBound(bytes: seq<Byte>)
    ensures Value(bytes) < Pow2(8 * |bytes|)
  {
    if bytes != [] {
      ValueBound(bytes[..|bytes| - 1]);
      Pow2Shift(8 * (|bytes| - 1));
    }
  }

  lemma Pow2Shift(n: nat)
    ensures Pow2(n + 8) == 256 * Pow2(n)
  {
    assert Pow2(n + 2) == 2 * Pow2(n + 1) == 4 * Pow2(n);
    assert Pow2(n + 4) == 2 * Pow2(n + 3) == 4 * Pow2(n + 2);
    assert Pow2(n + 6) == 2 * Pow2(n + 5) == 4 * Pow2(n + 4);
    assert Pow2(n + 8) == 2 * Pow2(n + 7) == 4 * Pow2(n + 6);
  }

  lemma {:induction false} Pow2Grows(m: nat, n: nat)
    requires m <= n
    ensures Pow2(m) <= Pow2(n)
    decreases n
  {
    if m < n {
      Pow2Grows(m, n - 1);
    }
  }

  /** The check is the formula `signature % 2^age == 0` unless the signature is zero and the age
      exceeds its number of bits. */
  lemma CheckIsModulus(age: nat, signature: seq<Byte>)
    ensures (Check(age, signature) <==> Value(signature) % Pow2(age) == 0) <==>
            !(Value(signature) == 0 && age > 8 * |signature|)
  {
    ZeroBitsBound(signature);
    if age <= 8 * |signature| {
      ZeroBitsIsDivisibility(signature, age);
    } else {
      ValueBound(signature);
      Pow2Grows(8 * |signature|, age);
      ModUnique(Value(signature), Pow2(age), 0, Value(signature));
    }
  }

  /** So for signatures of at least 32 bytes it is the formula at every age there is. */
  lemma CheckIsModulusForAges(age: nat, signature: seq<Byte>)
    requires age <= MAX_AGE && |signature| >= 32
    ensures Check(age, signature) <==> Value(signature) % Pow2(age) == 0
  {
    CheckIsModulus(age, signature);
  }

  // The actions of one churn event.

  datatype RelocateAction = Instant(destination: Name, age: nat) | Delayed(destination: Name)

  datatype Relocating = Relocating(node: NodeState, action: RelocateAction)

  function Passes(signature: seq<Byte>): NodeState -> bool {
    (node: NodeState) => Check(Age(node.peer), signature)
  }

  function Candidates(joined: seq<NodeState>, signature: seq<Byte>): seq<NodeState> {
    Filter(joined, Passes(signature))
  }

  function MaxAge(nodes: seq<NodeState>): (age: nat)
    requires nodes != []
    ensures exists node :: node in nodes && Age(node.peer) == age
    ensures forall node :: node in nodes ==> Age(node.peer) <= age
  {
    var front, last := nodes[..|nodes| - 1], nodes[|nodes| - 1];
    assert nodes == front + [last];
    assert last in nodes;
    if front == [] || MaxAge(front) < Age(last.peer) then Age(last.peer) else MaxAge(front)
  }

  /** An elder is relocated once it stops being one, anybody else at once and one year older. */
  function ActionFor(node: NodeState, elders: set<Name>, destination: Name): RelocateAction {
    if node.peer.name in elders then Delayed(destination)
    else Instant(destination, if Age(node.peer) < MAX_AGE then Age(node.peer) + 1 else MAX_AGE)
  }

  function ActionsAt(nodes: seq<NodeState>, age: nat, elders: set<Name>, destination: Name -> Name): (actions: seq<Relocating>)
    ensures forall node :: (exists action :: Relocating(node, action) in actions) <==> node in nodes && Age(node.peer) == age
    ensures forall r :: r in actions ==> r.action == ActionFor(r.node, elders, destination(r.node.peer.name))
  {
    if nodes == [] then []
    else
      var front, last := nodes[..|nodes| - 1], nodes[|nodes| - 1];
      assert nodes == front + [last];
      var rest := ActionsAt(front, age, elders, destination);
      if Age(last.peer) == age then
        var added := Relocating(last, ActionFor(last, elders, destination(last.peer.name)));
        assert added in rest + [added];
        assert forall r :: r in rest + [added] <==> r in rest || r == added;
        rest + [added]
      else rest
  }

  /** `destination` is the content hash of a name together with the churn name. */
  function Actions(joined: seq<NodeState>, elders: set<Name>, signature: seq<Byte>, destination: Name -> Name): seq<Relocating> {
    var candidates := Candidates(joined, signature);
    if candidates == [] then [] else ActionsAt(candidates, MaxAge(candidates), elders, destination)
  }

  lemma {:induction false} BitsBound(bits: seq<bool>)
    ensures BitsValue(bits) < Pow2(|bits|)
  {
    if bits != [] {
      BitsBound(bits[..|bits| - 1]);
    }
  }

  lemma AgeFits(peer: Peer)
    ensures Age(peer) <= MAX_AGE
  {
    BitsBound(peer.name[NAME_BITS - 8..]);
    Pow2Of8();
  }

  /** A churn event relocates exactly the joined members of the greatest age whose power of two
      divides the signature. */
  lemma ActionsAreOldestDivisors(joined: seq<NodeState>, elders: set<Name>, signature: seq<Byte>, destination: Name -> Name, node: NodeState)
    requires |signature| >= 32
    ensures (exists action :: Relocating(node, action) in Actions(joined, elders, signature, destination)) <==>
            && node in joined
            && Value(signature) % Pow2(Age(node.peer)) == 0
            && forall other :: other in joined && Value(signature) % Pow2(Age(other.peer)) == 0 ==>
                 Age(other.peer) <= Age(node.peer)
  {
    var candidates := Candidates(joined, signature);
    forall other | other in joined
      ensures other in candidates <==> Value(signature) % Pow2(Age(other.peer)) == 0
    {
      AgeFits(other.peer);
      CheckIsModulusForAges(Age(other.peer), signature);
    }
    if candidates == [] {
      assert node !in candidates;
    }
  }

  /** Elders are told to relocate once they are demoted; everybody else relocates at once, a year older but
      for those who cannot get older. */
  lemma ActionsAreOfTheRightKind(joined: seq<NodeState>, elders: set<Name>, signature: seq<Byte>, destination: Name -> Name, r: Relocating)
    requires r in Actions(joined, elders, signature, destination)
    ensures var name, age := r.node.peer.name, Age(r.node.peer);
            && (name in elders ==> r.action == Delayed(destination(name)))
            && (name !in elders && age < 255 ==> r.action == Instant(destination(name), age + 1))
            && (name !in elders && age >= 255 ==> r.action == Instant(destination(name), 255))
  {
    var candidates := Candidates(joined, signature);
    assert r.action == ActionFor(r.node, elders, destination(r.node.peer.name)) by {
      assert r in ActionsAt(candidates, MaxAge(candidates), elders, destination);
    }
  }
}
