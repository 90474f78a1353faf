/** The shared vocabulary of sections: peers, membership, authorities, signatures and the chain of
    section keys. A signature is symbolic: it records who made it and over what, and it verifies for
    exactly that key and that message. `bytes` is the order signatures are compared in.
 */
module Messaging {
  import opened Wrappers
  import opened Prefixes

  type Key = nat
  type Addr = nat

  const ELDER_SIZE: nat := 7
  const RECOMMENDED_SECTION_SIZE: nat := 2 * ELDER_SIZE
  const MIN_AGE: nat := 4

  datatype Peer = Peer(name: Name, addr: Addr, reachable: bool)

  datatype MembershipState = Joined | Relocated(destination: Name) | Left

  datatype NodeState = NodeState(peer: Peer, state: MembershipState)

  datatype SectionAuth = SectionAuth(prefix: Prefix, key: Key, elders: map<Name, Addr>)

  datatype ElderCandidates = ElderCandidates(elders: map<Name, Addr>, prefix: Prefix)

  datatype Message = AuthMessage(auth: SectionAuth) | MemberMessage(node: NodeState) | KeyMessage(key: Key)

  datatype Signature = Signature(bytes: nat, signer: Key, message: Message)

  datatype Signed = Signed(publicKey: Key, signature: Signature)

  datatype SignedAuth = SignedAuth(value: SectionAuth, signed: Signed)

  datatype SignedMember = SignedMember(value: NodeState, signed: Signed)

  /** The value of a bit string, most significant bit first. */
  function BitsValue(bits: seq<bool>): nat {
    if bits == [] then 0
    else 2 * BitsValue(bits[..|bits| - 1]) + if bits[|bits| - 1] then 1 else 0
  }

  /** A peer's age is the last byte of its name. */
  function Age(peer: Peer): nat {
    BitsValue(peer.name[NAME_BITS - 8..])
  }

  function Bit(bit: bool): nat {
    if bit then 1 else 0
  }

  /** That is the number its last eight bits stand for, most significant first. */
  lemma AgeIsLastByte(peer: Peer)
    ensures var b := peer.name[NAME_BITS - 8..];
            Age(peer) == 128 * Bit(b[0]) + 64 * Bit(b[1]) + 32 * Bit(b[2]) + 16 * Bit(b[3])
                         + 8 * Bit(b[4]) + 4 * Bit(b[5]) + 2 * Bit(b[6]) + Bit(b[7])
  {
    var b := peer.name[NAME_BITS - 8..];
    EightBits(b);
  }

  lemma EightBits(b: seq<bool>)
    requires |b| == 8
    ensures BitsValue(b) == 128 * Bit(b[0]) + 64 * Bit(b[1]) + 32 * Bit(b[2]) + 16 * Bit(b[3])
                            + 8 * Bit(b[4]) + 4 * Bit(b[5]) + 2 * Bit(b[6]) + Bit(b[7])
  {
    FourBits(b, 0);
    FourBits(b, 4);
    assert b[..8] == b && b[..0] == [];
  }

  lemma FourBits(b: seq<bool>, n: nat)
    requires n + 4 <= |b|
    ensures BitsValue(b[..n + 4]) ==
            16 * BitsValue(b[..n]) + 8 * Bit(b[n]) + 4 * Bit(b[n + 1]) + 2 * Bit(b[n + 2]) + Bit(b[n + 3])
  {
    LastBit(b, n + 4);
    LastBit(b, n + 3);
    LastBit(b, n + 2);
    LastBit(b, n + 1);
  }

  lemma LastBit(b: seq<bool>, n: nat)
    requires 0 < n <= |b|
    ensures BitsValue(b[..n]) == 2 * BitsValue(b[..n - 1]) + Bit(b[n - 1])
  {
    assert b[..n][..n - 1] == b[..n - 1];
  }

  predicate IsMature(node: NodeState) {
    Age(node.peer) > MIN_AGE
  }

  predicate Verifies(signed: Signed, message: Message) {
    signed.signature.signer == signed.publicKey && signed.signature.message == message
  }

  predicate AuthVerifies(auth: SignedAuth) {
    Verifies(auth.signed, AuthMessage(auth.value))
  }

  predicate MemberVerifies(member: SignedMember, chain: Chain) {
    member.signed.publicKey in chain.keys && Verifies(member.signed, MemberMessage(member.value))
  }

  /** The chain of section keys, seen through the keys it holds and the last of them. */
  datatype Chain = Chain(keys: set<Key>, last: Key)

  ghost predicate ValidChain(chain: Chain) {
    chain.last in chain.keys
  }

  /** How the chain resolves forks is not part of this model: it is a parameter bound only by
      `Lawful`. `insert(chain, parent, key)` and `merge(chain, other)` return the new chain. */
  datatype ChainRules = ChainRules(insert: (Chain, Key, Key) -> Chain, merge: (Chain, Chain) -> Option<Chain>)

  ghost predicate LawfulInsert(rules: ChainRules, chain: Chain, parent: Key, key: Key) {
    ValidChain(chain) && parent in chain.keys ==>
      var next := rules.insert(chain, parent, key);
      && next.keys == chain.keys + {key}
      && (next.last == chain.last || next.last == key)
      && (parent == chain.last && key !in chain.keys ==> next.last == key)
  }

  ghost predicate LawfulMerge(rules: ChainRules, chain: Chain, other: Chain) {
    ValidChain(chain) && ValidChain(other) ==>
      var merged := rules.merge(chain, other);
      && merged == rules.merge(other, chain)
      && (merged.Some? ==>
            && merged.value.keys == chain.keys + other.keys
            && (merged.value.last == chain.last || merged.value.last == other.last))
  }

  ghost predicate Lawful(rules: ChainRules) {
    && (forall chain, parent, key :: LawfulInsert(rules, chain, parent, key))
    && (forall chain, other :: LawfulMerge(rules, chain, other))
  }

  /** A key enters the chain if its parent is there and signed it. */
  function ChainInserted(rules: ChainRules, chain: Chain, key: Key, signed: Signed): Option<Chain> {
    if signed.publicKey in chain.keys && Verifies(signed, KeyMessage(key))
    then Some(rules.insert(chain, signed.publicKey, key))
    else None
  }

  /** One way to resolve forks: keep the last key unless it is extended, and prefer the larger one. */
  const LARGER_KEY_WINS: ChainRules := ChainRules(
    (chain: Chain, parent: Key, key: Key) =>
      Chain(chain.keys + {key}, if parent == chain.last && key !in chain.keys then key else chain.last),
    (chain: Chain, other: Chain) =>
      Some(Chain(chain.keys + other.keys, if chain.last < other.last then other.last else chain.last)))

  lemma LargerKeyWinsIsLawful()
    ensures Lawful(LARGER_KEY_WINS)
  {
    forall chain, other ensures LawfulMerge(LARGER_KEY_WINS, chain, other) {
      assert chain.keys + other.keys == other.keys + chain.keys;
    }
  }
}
