/**
 The registry as a state machine over transactions (contracts/src/WebwayRegistry.sol:37-126): who owns a key, what is
 published under an account and which nodes it advertises, after any history.
 */
module Registry {
  import opened Options
  import opened Bytes
  import opened BindingText

  type Pk = seq<byte>
  type Sig = seq<byte>
  type Address = nat

  const MAX_NAME: nat := 128
  const MAX_LICENSE: nat := 64
  const MAX_NODES: nat := 20
  const MAX_NODE_LEN: nat := 64

  datatype Owner = Owner(addr: Address, epoch: nat)
  datatype Record = Record(infohash: string, license: string, seqNo: nat, updatedAt: nat)

  /** An absent owner is an unset one; an absent record has sequence number 0. */
  datatype State = State(
    owners: map<Pk, Owner>,
    records: map<(Address, string), Record>,
    nodes: map<Address, seq<string>>)

  datatype Tx =
    | Bind(sender: Address, pk: Pk, sig: Sig, epoch: nat)
    | Publish(sender: Address, name: string, infohash: string, license: string, seqNo: nat, time: nat)
    | SetNodes(sender: Address, list: seq<string>)

  datatype Revert =
    | BadSignatureLength | EpochNotIncreasing(have: nat, got: nat) | BadSignature | VerifierReverted
    | BadName | BadLicense | SeqNotIncreasing(haveSeq: nat, gotSeq: nat) | BadNodes

  /** The chain the contract is deployed on, and its ed25519 verifier: a verdict, or nothing when it reverts. */
  datatype Env = Env(chainId: nat, verifier: (Pk, Sig, seq<byte>) -> Option<bool>) {
    predicate Accepts(pk: Pk, sig: Sig, addr: Address, epoch: nat) {
      verifier(pk, sig, MessageBytes(chainId, addr, epoch)) == Some(true)
    }
  }

  /** Arguments as the ABI types them. */
  predicate Typed(tx: Tx) {
    && tx.sender < Pow256(20)
    && (tx.Bind? ==> tx.epoch <= MAX_U64 && |tx.pk| == 32)
    && (tx.Publish? ==> tx.seqNo <= MAX_U64)
  }

  function SeqOf(s: State, addr: Address, name: string): nat {
    if (addr, name) in s.records then s.records[(addr, name)].seqNo else 0
  }

  predicate GoodNode(n: string) { 0 < |n| <= MAX_NODE_LEN }

  /** Why a transaction reverts, checked in this order; None when it goes through. */
  function Refusal(env: Env, s: State, tx: Tx): Option<Revert> {
    match tx
    case Bind(sender, pk, sig, epoch) =>
      if |sig| != 64 then Some(BadSignatureLength)
      else if pk in s.owners && epoch <= s.owners[pk].epoch then Some(EpochNotIncreasing(s.owners[pk].epoch, epoch))
      else
        (match env.verifier(pk, sig, MessageBytes(env.chainId, sender, epoch))
         case None => Some(VerifierReverted)
         case Some(ok) => if ok then None else Some(BadSignature))
    case Publish(sender, name, _, license, seqNo, _) =>
      if |name| == 0 || |name| > MAX_NAME then Some(BadName)
      else if |license| > MAX_LICENSE then Some(BadLicense)
      else if seqNo <= SeqOf(s, sender, name) then Some(SeqNotIncreasing(SeqOf(s, sender, name), seqNo))
      else None
    case SetNodes(_, list) =>
      if |list| > MAX_NODES || exists i :: 0 <= i < |list| && !GoodNode(list[i]) then Some(BadNodes) else None
  }

  /** A reverted transaction changes nothing. */
  function Step(env: Env, s: State, tx: Tx): State {
    if Refusal(env, s, tx).Some? then s
    else
      match tx
      case Bind(sender, pk, _, epoch) => s.(owners := s.owners[pk := Owner(sender, epoch)])
      case Publish(sender, name, infohash, license, seqNo, time) =>
        s.(records := s.records[(sender, name) := Record(infohash, license, seqNo, time % (MAX_U64 + 1))])
      case SetNodes(sender, list) => s.(nodes := s.nodes[sender := list])
  }

  function Run(env: Env, s: State, txs: seq<Tx>): State
    decreases txs
  {
    if txs == [] then s else Run(env, Step(env, s, txs[0]), txs[1..])
  }

  function Deployed(): State { State(map[], map[], map[]) }

  // ---- ownership ---------------------------------------------------------------------------------------------

  predicate BindsNow(env: Env, s: State, tx: Tx, pk: Pk) {
    tx.Bind? && tx.pk == pk && Refusal(env, s, tx).None?
  }

  /** A binding that was accepted, with the signature that carried it. */
  datatype Accepted = Accepted(owner: Owner, sig: Sig)

  /** The bindings of pk that were accepted, oldest first. */
  function Bindings(env: Env, s: State, txs: seq<Tx>, pk: Pk): seq<Accepted>
    decreases txs
  {
    if txs == [] then []
    else BoundBy(env, s, txs[0], pk) + Bindings(env, Step(env, s, txs[0]), txs[1..], pk)
  }

  function BoundBy(env: Env, s: State, tx: Tx, pk: Pk): seq<Accepted> {
    if BindsNow(env, s, tx, pk) then [Accepted(Owner(tx.sender, tx.epoch), tx.sig)] else []
  }

  /** Signed for this chain, this account and this epoch. */
  predicate Genuine(env: Env, pk: Pk, a: Accepted) {
    |a.sig| == 64 && env.Accepts(pk, a.sig, a.owner.addr, a.owner.epoch)
  }

  predicate Above(s: State, pk: Pk, epoch: nat) {
    pk in s.owners ==> s.owners[pk].epoch < epoch
  }

  predicate SameOwner(s: State, t: State, pk: Pk) {
    (pk in t.owners <==> pk in s.owners) && (pk in s.owners ==> t.owners[pk] == s.owners[pk])
  }

  predicate OwnerIs(t: State, pk: Pk, o: Owner) { pk in t.owners && t.owners[pk] == o }

  /** One transaction: a genuine binding above the current epoch becomes the owner, anything else leaves the owner. */
  lemma BindStep(env: Env, s: State, tx: Tx, pk: Pk)
    ensures var b := BoundBy(env, s, tx, pk);
      && |b| <= 1
      && (b == [] ==> SameOwner(s, Step(env, s, tx), pk))
      && (b != [] ==>
           OwnerIs(Step(env, s, tx), pk, b[0].owner) && Above(s, pk, b[0].owner.epoch) && Genuine(env, pk, b[0]))
  {
    hide MessageBytes;
  }

  /** Epochs rise, every binding is genuine, and the last one is the owner. */
  ghost predicate Chronicle(env: Env, s: State, b: seq<Accepted>, pk: Pk, t: State) {
    && (forall i :: 0 <= i < |b| ==> Above(s, pk, b[i].owner.epoch) && Genuine(env, pk, b[i]))
    && (forall i, j :: 0 <= i < j < |b| ==> b[i].owner.epoch < b[j].owner.epoch)
    && if b == [] then SameOwner(s, t, pk) else OwnerIs(t, pk, b[|b| - 1].owner)
  }

  /** What one transaction adds in front of a chronicle. */
  ghost predicate Turn(env: Env, s: State, first: seq<Accepted>, pk: Pk, u: State) {
    && |first| <= 1
    && (first == [] ==> SameOwner(s, u, pk))
    && (first != [] ==>
         OwnerIs(u, pk, first[0].owner) && Above(s, pk, first[0].owner.epoch) && Genuine(env, pk, first[0]))
  }

  lemma ChronicleNone(env: Env, s: State, u: State, rest: seq<Accepted>, pk: Pk, t: State)
    requires SameOwner(s, u, pk) && Chronicle(env, u, rest, pk, t)
    ensures Chronicle(env, s, rest, pk, t)
  {
    hide Genuine;
  }

  lemma ChronicleOne(env: Env, s: State, u: State, a: Accepted, rest: seq<Accepted>, pk: Pk, t: State)
    requires Turn(env, s, [a], pk, u) && Chronicle(env, u, rest, pk, t)
    ensures Chronicle(env, s, [a] + rest, pk, t)
  {
    hide Genuine;
    var b := [a] + rest;
    assert b[0] == a && Genuine(env, pk, a);
    assert forall i :: 0 < i < |b| ==> b[i] == rest[i - 1];
    assert rest == [] ==> b[|b| - 1] == a;
    assert rest != [] ==> b[|b| - 1] == rest[|rest| - 1];
  }

  lemma {:induction false} BindingsRise(env: Env, s: State, txs: seq<Tx>, pk: Pk)
    ensures Chronicle(env, s, Bindings(env, s, txs, pk), pk, Run(env, s, txs))
    decreases txs
  {
    if txs == [] {
      assert Bindings(env, s, txs, pk) == [];
    } else {
      var u := Step(env, s, txs[0]);
      var first, rest := BoundBy(env, s, txs[0], pk), Bindings(env, u, txs[1..], pk);
      BindStep(env, s, txs[0], pk);
      hide Step, BoundBy, Genuine, Chronicle, SameOwner, Above, OwnerIs;
      BindingsRise(env, u, txs[1..], pk);
      if first == [] {
        assert [] + rest == rest;
        ChronicleNone(env, s, u, rest, pk, Run(env, s, txs));
      } else {
        assert first == [first[0]];
        ChronicleOne(env, s, u, first[0], rest, pk, Run(env, s, txs));
      }
    }
  }

  /**
   After any history ownerOf(pk) is the sender of the accepted binding with the greatest epoch, and no (pk, epoch) is
   ever accepted twice.
   */
  lemma OwnerIsGreatest(env: Env, txs: seq<Tx>, pk: Pk)
    ensures var b, t := Bindings(env, Deployed(), txs, pk), Run(env, Deployed(), txs);
      && (pk in t.owners <==> b != [])
      && (forall i :: 0 <= i < |b| ==> Genuine(env, pk, b[i]) && b[i].owner.epoch <= t.owners[pk].epoch)
      && (forall i, j :: 0 <= i < j < |b| ==> b[i].owner.epoch != b[j].owner.epoch)
      && (pk in t.owners ==> exists i :: 0 <= i < |b| && b[i].owner == t.owners[pk])
  {
    BindingsRise(env, Deployed(), txs, pk);
    hide Bindings, Run, Genuine;
    var b, t := Bindings(env, Deployed(), txs, pk), Run(env, Deployed(), txs);
    if b != [] { assert t.owners[pk] == b[|b| - 1].owner; }
  }

  /** This transaction carried that binding of pk. */
  predicate CarriedBy(tx: Tx, pk: Pk, a: Accepted) {
    tx.Bind? && tx.pk == pk && a == Accepted(Owner(tx.sender, tx.epoch), tx.sig)
  }

  /** Every accepted binding arrived in a transaction of the history. */
  lemma {:induction false} BindingsCarried(env: Env, s: State, txs: seq<Tx>, pk: Pk)
    ensures forall i :: 0 <= i < |Bindings(env, s, txs, pk)| ==>
      exists k :: 0 <= k < |txs| && CarriedBy(txs[k], pk, Bindings(env, s, txs, pk)[i])
    decreases txs
  {
    if txs == [] {
      assert Bindings(env, s, txs, pk) == [];
    } else {
      var u := Step(env, s, txs[0]);
      var first, rest := BoundBy(env, s, txs[0], pk), Bindings(env, u, txs[1..], pk);
      BindingsCarried(env, u, txs[1..], pk);
      assert forall i :: 0 <= i < |first| ==> CarriedBy(txs[0], pk, first[i]);
      hide Step, BoundBy, CarriedBy;
      var b := Bindings(env, s, txs, pk);
      assert b == first + rest;
      forall i | 0 <= i < |b| ensures exists k :: 0 <= k < |txs| && CarriedBy(txs[k], pk, b[i]) {
        if i < |first| {
          assert CarriedBy(txs[0], pk, b[i]);
        } else {
          assert b[i] == rest[i - |first|];
          var k :| 0 <= k < |txs[1..]| && CarriedBy(txs[1..][k], pk, rest[i - |first|]);
          assert CarriedBy(txs[k + 1], pk, b[i]);
        }
      }
    }
  }

  /** The owner's binding arrived from the owner, with a signature the verifier accepted for this chain and epoch. */
  lemma OwnerCarried(env: Env, txs: seq<Tx>, pk: Pk) returns (k: nat)
    requires pk in Run(env, Deployed(), txs).owners
    ensures k < |txs| && txs[k].Bind? && txs[k].pk == pk && |txs[k].sig| == 64
    ensures Owner(txs[k].sender, txs[k].epoch) == Run(env, Deployed(), txs).owners[pk]
    ensures env.Accepts(pk, txs[k].sig, txs[k].sender, txs[k].epoch)
  {
    var t, b := Run(env, Deployed(), txs), Bindings(env, Deployed(), txs, pk);
    OwnerIsGreatest(env, txs, pk);
    BindingsCarried(env, Deployed(), txs, pk);
    hide Bindings, Run, MessageBytes;
    var i :| 0 <= i < |b| && b[i].owner == t.owners[pk];
    assert Genuine(env, pk, b[i]);
    k :| 0 <= k < |txs| && CarriedBy(txs[k], pk, b[i]);
  }

  /**
   Unforgeability, as a hypothesis about what arrives: every signature of pk that was accepted in this history is over
   something its holder signed.  `signed` is everything the holder ever signed, DHT records included.
   */
  ghost predicate Unforged(env: Env, txs: seq<Tx>, pk: Pk, signed: iset<seq<byte>>) {
    forall tx :: tx in txs && tx.Bind? && tx.pk == pk && env.Accepts(pk, tx.sig, tx.sender, tx.epoch) ==>
      MessageBytes(env.chainId, tx.sender, tx.epoch) in signed
  }

  /** m says this chain, this account and this epoch, and nothing else. */
  ghost predicate Names(m: seq<byte>, chainId: nat, addr: Address, epoch: nat) {
    && m == MessageBytes(chainId, addr, epoch)
    && forall c: nat, a: nat, e: nat :: a < Pow256(20) && m == MessageBytes(c, a, e) ==>
         c == chainId && a == addr && e == epoch
  }

  /**
   Nobody but the key holder can make an account the owner: the holder signed the message that names this chain, this
   account and this epoch, and names no other.
   */
  lemma OwnerWasSigned(env: Env, txs: seq<Tx>, pk: Pk, signed: iset<seq<byte>>)
    requires Unforged(env, txs, pk, signed) && forall i :: 0 <= i < |txs| ==> Typed(txs[i])
    ensures pk in Run(env, Deployed(), txs).owners ==>
      var o := Run(env, Deployed(), txs).owners[pk];
      exists m :: m in signed && Names(m, env.chainId, o.addr, o.epoch)
  {
    hide Run, MessageBytes, Pow256;
    if pk in Run(env, Deployed(), txs).owners {
      var k := OwnerCarried(env, txs, pk);
      assert txs[k] in txs && Typed(txs[k]);
      NamesOne(env.chainId, txs[k].sender, txs[k].epoch);
    }
  }

  lemma NamesOne(chainId: nat, addr: Address, epoch: nat)
    requires addr < Pow256(20)
    ensures Names(MessageBytes(chainId, addr, epoch), chainId, addr, epoch)
  {
    hide MessageBytes, Pow256;
    var m := MessageBytes(chainId, addr, epoch);
    forall c: nat, a: nat, e: nat | a < Pow256(20) && m == MessageBytes(c, a, e)
      ensures c == chainId && a == addr && e == epoch
    {
      MessageBytesInjective(c, a, e, chainId, addr, epoch);
    }
  }

  /** What the holder of pk agreed to: chain, account, epoch. */
  datatype Consent = Consent(chainId: nat, addr: Address, epoch: nat)

  /** Beside binding messages for what was agreed to, the holder signs only what does not begin like one. */
  ghost predicate SignsApart(signed: iset<seq<byte>>, consents: iset<Consent>) {
    forall m :: m in signed && m != [] && m[0] == BINDING_MARK ==>
      exists c :: c in consents && c.addr < Pow256(20) && m == MessageBytes(c.chainId, c.addr, c.epoch)
  }

  /**
   The key may sign anything else, such as DHT records, without touching ownership: as long as nothing else it signs
   begins with the letter a binding message begins with, the owner is an account and epoch agreed to for this chain.
   */
  lemma OwnerConsented(env: Env, txs: seq<Tx>, pk: Pk, signed: iset<seq<byte>>, consents: iset<Consent>)
    requires Unforged(env, txs, pk, signed) && SignsApart(signed, consents)
    requires forall i :: 0 <= i < |txs| ==> Typed(txs[i])
    ensures pk in Run(env, Deployed(), txs).owners ==>
      var o := Run(env, Deployed(), txs).owners[pk]; Consent(env.chainId, o.addr, o.epoch) in consents
  {
    OwnerWasSigned(env, txs, pk, signed);
    hide Run, MessageBytes, Pow256, Unforged;
    if pk in Run(env, Deployed(), txs).owners {
      var o := Run(env, Deployed(), txs).owners[pk];
      var m :| m in signed && Names(m, env.chainId, o.addr, o.epoch);
      MessageBegins(env.chainId, o.addr, o.epoch);
      var c :| c in consents && c.addr < Pow256(20) && m == MessageBytes(c.chainId, c.addr, c.epoch);
      assert c == Consent(env.chainId, o.addr, o.epoch);
    }
  }

  // ---- publishing --------------------------------------------------------------------------------------------------

  predicate Publishes(env: Env, s: State, tx: Tx, addr: Address, name: string) {
    tx.Publish? && tx.sender == addr && tx.name == name && Refusal(env, s, tx).None?
  }

  /** The publications of (addr, name) that went through, oldest first. */
  function Publications(env: Env, s: State, txs: seq<Tx>, addr: Address, name: string): seq<Record>
    decreases txs
  {
    if txs == [] then []
    else PublishedBy(env, s, txs[0], addr, name) + Publications(env, Step(env, s, txs[0]), txs[1..], addr, name)
  }

  function PublishedBy(env: Env, s: State, tx: Tx, addr: Address, name: string): seq<Record> {
    if Publishes(env, s, tx, addr, name) then [Record(tx.infohash, tx.license, tx.seqNo, tx.time % (MAX_U64 + 1))]
      else []
  }

  predicate SameRecord(s: State, t: State, addr: Address, name: string) {
    && ((addr, name) in t.records <==> (addr, name) in s.records)
    && ((addr, name) in s.records ==> t.records[(addr, name)] == s.records[(addr, name)])
  }

  predicate RecordIs(t: State, addr: Address, name: string, r: Record) {
    (addr, name) in t.records && t.records[(addr, name)] == r
  }

  lemma PublishStep(env: Env, s: State, tx: Tx, addr: Address, name: string)
    ensures var p := PublishedBy(env, s, tx, addr, name);
      && |p| <= 1
      && (p == [] ==> SameRecord(s, Step(env, s, tx), addr, name))
      && (p != [] ==> RecordIs(Step(env, s, tx), addr, name, p[0]) && SeqOf(s, addr, name) < p[0].seqNo)
  {
    hide MessageBytes;
  }

  /** Sequence numbers rise from what was there, and the record is the last publication. */
  ghost predicate Published(s: State, p: seq<Record>, addr: Address, name: string, t: State) {
    && (forall i :: 0 <= i < |p| ==> SeqOf(s, addr, name) < p[i].seqNo)
    && (forall i, j :: 0 <= i < j < |p| ==> p[i].seqNo < p[j].seqNo)
    && if p == [] then SameRecord(s, t, addr, name) else RecordIs(t, addr, name, p[|p| - 1])
  }

  lemma PublishedNone(s: State, u: State, rest: seq<Record>, addr: Address, name: string, t: State)
    requires SameRecord(s, u, addr, name) && Published(u, rest, addr, name, t)
    ensures Published(s, rest, addr, name, t)
  {}

  lemma PublishedOne(s: State, u: State, r: Record, rest: seq<Record>, addr: Address, name: string, t: State)
    requires RecordIs(u, addr, name, r) && SeqOf(s, addr, name) < r.seqNo && Published(u, rest, addr, name, t)
    ensures Published(s, [r] + rest, addr, name, t)
  {
    var p := [r] + rest;
    assert p[0] == r;
    assert forall i :: 0 < i < |p| ==> p[i] == rest[i - 1];
    assert rest == [] ==> p[|p| - 1] == r;
    assert rest != [] ==> p[|p| - 1] == rest[|rest| - 1];
  }

  /** A record only ever moves forward, and always to what its own account published last. */
  lemma {:induction false} PublishedLast(env: Env, s: State, txs: seq<Tx>, addr: Address, name: string)
    ensures Published(s, Publications(env, s, txs, addr, name), addr, name, Run(env, s, txs))
    decreases txs
  {
    if txs == [] {
      assert Publications(env, s, txs, addr, name) == [];
    } else {
      var u := Step(env, s, txs[0]);
      var first, rest := PublishedBy(env, s, txs[0], addr, name), Publications(env, u, txs[1..], addr, name);
      PublishStep(env, s, txs[0], addr, name);
      hide Step, PublishedBy, Published, SameRecord, RecordIs, SeqOf;
      PublishedLast(env, u, txs[1..], addr, name);
      if first == [] {
        assert [] + rest == rest;
        PublishedNone(s, u, rest, addr, name, Run(env, s, txs));
      } else {
        assert first == [first[0]];
        PublishedOne(s, u, first[0], rest, addr, name, Run(env, s, txs));
      }
    }
  }

  /** No transaction of anybody else changes an account's records or nodes. */
  lemma OthersCannotTouch(env: Env, s: State, tx: Tx, addr: Address, name: string)
    requires tx.sender != addr
    ensures SameRecord(s, Step(env, s, tx), addr, name)
    ensures addr in s.nodes <==> addr in Step(env, s, tx).nodes
    ensures addr in s.nodes ==> Step(env, s, tx).nodes[addr] == s.nodes[addr]
  {
    hide MessageBytes;
  }

  /** Advertised nodes always respect the limits. */
  ghost predicate NodesOk(s: State) {
    forall a :: a in s.nodes ==>
      |s.nodes[a]| <= MAX_NODES && forall i :: 0 <= i < |s.nodes[a]| ==> GoodNode(s.nodes[a][i])
  }

  lemma {:induction false} NodesStayGood(env: Env, s: State, txs: seq<Tx>)
    requires NodesOk(s)
    ensures NodesOk(Run(env, s, txs))
    decreases txs
  {
    if txs == [] {
    } else {
      assert NodesOk(Step(env, s, txs[0])) by { hide MessageBytes, GoodNode; }
      NodesStayGood(env, Step(env, s, txs[0]), txs[1..]);
    }
  }

  // ---- the contract ----------------------------------------------------------------------------------------------

  /** WebwayRegistry: three mappings updated in place. */
  class Contract {
    const env: Env
    var owners: map<Pk, Owner>
    var records: map<(Address, string), Record>
    var nodes: map<Address, seq<string>>

    function View(): State
      reads this
    {
      State(owners, records, nodes)
    }

    constructor (env: Env)
      ensures this.env == env && View() == Deployed()
    {
      this.env := env;
      owners, records, nodes := map[], map[], map[];
    }

    /** None when the verifier reverts. */
    method CheckBinding(pk: Pk, addr: Address, epoch: nat, sig: Sig) returns (ok: Option<bool>)
      requires addr < Pow256(20)
      ensures ok == if |sig| != 64 then Some(false) else env.verifier(pk, sig, MessageBytes(env.chainId, addr, epoch))
    {
      if |sig| != 64 { return Some(false); }
      var m := ContractMessage(env.chainId, addr, epoch);
      ok := env.verifier(pk, sig, CharBytes(m));
    }

    method Bind(sender: Address, pk: Pk, sig: Sig, epoch: nat) returns (refused: Option<Revert>)
      requires sender < Pow256(20)
      modifies this`owners
      ensures var tx := Tx.Bind(sender, pk, sig, epoch);
        refused == Refusal(env, old(View()), tx) && View() == Step(env, old(View()), tx)
    {
      if |sig| != 64 { return Some(BadSignatureLength); }
      if pk in owners && epoch <= owners[pk].epoch { return Some(EpochNotIncreasing(owners[pk].epoch, epoch)); }
      var m := ContractMessage(env.chainId, sender, epoch);
      assert CharBytes(m) == MessageBytes(env.chainId, sender, epoch);
      hide MessageBytes, CharBytes;
      var ok := env.verifier(pk, sig, CharBytes(m));
      if ok.None? { return Some(VerifierReverted); }
      if !ok.value { return Some(BadSignature); }
      owners := owners[pk := Owner(sender, epoch)];
      refused := None;
    }

    method Publish(sender: Address, name: string, infohash: string, license: string, seqNo: nat,
                   time: nat)
      returns (refused: Option<Revert>)
      modifies this`records
      ensures var tx := Tx.Publish(sender, name, infohash, license, seqNo, time);
        refused == Refusal(env, old(View()), tx) && View() == Step(env, old(View()), tx)
    {
      if |name| == 0 || |name| > MAX_NAME { return Some(BadName); }
      if |license| > MAX_LICENSE { return Some(BadLicense); }
      var have := if (sender, name) in records then records[(sender, name)].seqNo else 0;
      if seqNo <= have { return Some(SeqNotIncreasing(have, seqNo)); }
      records := records[(sender, name) := Record(infohash, license, seqNo, time % (MAX_U64 + 1))];
      refused := None;
    }

    /** The list is built up entry by entry; a bad one undoes everything. */
    method SetNodes(sender: Address, list: seq<string>) returns (refused: Option<Revert>)
      modifies this`nodes
      ensures var tx := Tx.SetNodes(sender, list);
        refused == Refusal(env, old(View()), tx) && View() == Step(env, old(View()), tx)
    {
      if |list| > MAX_NODES { return Some(BadNodes); }
      var dst: seq<string> := [];
      for i := 0 to |list|
        invariant dst == list[..i] && forall j :: 0 <= j < i ==> GoodNode(list[j])
      {
        if |list[i]| == 0 || |list[i]| > MAX_NODE_LEN {
          assert !GoodNode(list[i]);
          return Some(BadNodes);
        }
        dst := dst + [list[i]];
      }
      assert dst == list;
      nodes := nodes[sender := dst];
      refused := None;
    }
  }
}
