/**
 The registry after any history, told of the transactions that were sent rather than of those that went through
 (contracts/src/WebwayRegistry.sol:49-126): who owns a key, what a name resolves to, which nodes are advertised.
 */
module RegistryHistory {
  import opened Options
  import opened BindingText
  import opened Registry

  // ---- what a transaction must be -----------------------------------------------------------------------------

  /** A binding of pk with a signature the verifier accepts for this chain, sender and epoch. */
  predicate Claims(env: Env, tx: Tx, pk: Pk) {
    tx.Bind? && tx.pk == pk && |tx.sig| == 64 && env.Accepts(pk, tx.sig, tx.sender, tx.epoch)
  }

  /** A publication of (addr, name) within the limits, numbered above zero. */
  predicate Posts(tx: Tx, addr: Address, name: string) {
    tx.Publish? && tx.sender == addr && tx.name == name && 1 <= |name| <= 128 && |tx.license| <= 64 && tx.seqNo > 0
  }

  /** A list of at most 20 entries of 1 to 64 characters. */
  predicate Lists(tx: Tx, addr: Address) {
    tx.SetNodes? && tx.sender == addr && |tx.list| <= 20 && forall n :: n in tx.list ==> 1 <= |n| <= 64
  }

  function RecordOf(tx: Tx): Record
    requires tx.Publish?
  {
    Record(tx.infohash, tx.license, tx.seqNo, tx.time % 0x1_0000_0000_0000_0000)
  }

  // ---- one transaction ---------------------------------------------------------------------------------------------

  /** A claim above the current epoch takes the key; nothing else moves it. */
  lemma BindExact(env: Env, s: State, tx: Tx, pk: Pk)
    ensures var t := Step(env, s, tx);
      if Claims(env, tx, pk) && Above(s, pk, tx.epoch) then OwnerIs(t, pk, Owner(tx.sender, tx.epoch))
      else SameOwner(s, t, pk)
    ensures tx.Bind? && tx.pk == pk ==>
      (Refusal(env, s, tx).None? <==> Claims(env, tx, pk) && Above(s, pk, tx.epoch))
  {
    hide MessageBytes;
  }

  /** A post numbered above the current one becomes the record; nothing else changes it. */
  lemma PublishExact(env: Env, s: State, tx: Tx, addr: Address, name: string)
    ensures var t := Step(env, s, tx);
      if Posts(tx, addr, name) && tx.seqNo > SeqOf(s, addr, name) then RecordIs(t, addr, name, RecordOf(tx))
      else SameRecord(s, t, addr, name)
    ensures tx.Publish? && tx.sender == addr && tx.name == name ==>
      (Refusal(env, s, tx).None? <==> Posts(tx, addr, name) && tx.seqNo > SeqOf(s, addr, name))
  {
    hide MessageBytes;
  }

  predicate SameNodes(s: State, t: State, addr: Address) {
    (addr in t.nodes <==> addr in s.nodes) && (addr in s.nodes ==> t.nodes[addr] == s.nodes[addr])
  }

  /** A list within the limits replaces the account's nodes; nothing else changes them. */
  lemma SetNodesExact(env: Env, s: State, tx: Tx, addr: Address)
    ensures var t := Step(env, s, tx);
      if Lists(tx, addr) then addr in t.nodes && t.nodes[addr] == tx.list else SameNodes(s, t, addr)
    ensures tx.SetNodes? && tx.sender == addr ==> (Refusal(env, s, tx).None? <==> Lists(tx, addr))
  {
    hide MessageBytes;
    if tx.SetNodes? {
      if i :| 0 <= i < |tx.list| && !GoodNode(tx.list[i]) { assert tx.list[i] in tx.list; }
    }
  }

  // ---- any history: who owns a key --------------------------------------------------------------------------------

  /** The k-th transaction claims pk above the epoch there was and above every claim before it. */
  predicate Leads(env: Env, s: State, txs: seq<Tx>, pk: Pk, k: nat)
    requires k < |txs|
  {
    && Claims(env, txs[k], pk)
    && Above(s, pk, txs[k].epoch)
    && forall j :: 0 <= j < k && Claims(env, txs[j], pk) ==> txs[j].epoch < txs[k].epoch
  }

  /** What a history makes of the ownership of pk. */
  ghost predicate Ruled(env: Env, s: State, txs: seq<Tx>, pk: Pk, t: State) {
    && (forall k :: 0 <= k < |txs| && Claims(env, txs[k], pk) ==> !Above(t, pk, txs[k].epoch))
    && (pk in s.owners ==> !Above(t, pk, s.owners[pk].epoch))
    && (SameOwner(s, t, pk)
        || exists k ::
             0 <= k < |txs| && Leads(env, s, txs, pk, k) && OwnerIs(t, pk, Owner(txs[k].sender, txs[k].epoch)))
  }

  lemma RuledStep(env: Env, s: State, txs: seq<Tx>, pk: Pk, t: State)
    requires txs != [] && Ruled(env, Step(env, s, txs[0]), txs[1..], pk, t)
    ensures Ruled(env, s, txs, pk, t)
  {
    var u, rest := Step(env, s, txs[0]), txs[1..];
    BindExact(env, s, txs[0], pk);
    hide Step, Claims;
    forall k | 0 <= k < |txs| && Claims(env, txs[k], pk) ensures !Above(t, pk, txs[k].epoch) {
      if k > 0 { assert rest[k - 1] == txs[k]; }
    }
    if SameOwner(u, t, pk) {
      if !SameOwner(s, u, pk) { assert Leads(env, s, txs, pk, 0); }
    } else {
      var k :| 0 <= k < |rest| && Leads(env, u, rest, pk, k) && OwnerIs(t, pk, Owner(rest[k].sender, rest[k].epoch));
      assert rest[k] == txs[k + 1];
      forall j | 0 <= j < k + 1 && Claims(env, txs[j], pk) ensures txs[j].epoch < txs[k + 1].epoch {
        if j > 0 { assert rest[j - 1] == txs[j]; }
      }
      assert Leads(env, s, txs, pk, k + 1);
    }
  }

  lemma {:induction false} RunRules(env: Env, s: State, txs: seq<Tx>, pk: Pk)
    ensures Ruled(env, s, txs, pk, Run(env, s, txs))
    decreases txs
  {
    if txs == [] {
    } else {
      hide Ruled, Step;
      RunRules(env, Step(env, s, txs[0]), txs[1..], pk);
      RuledStep(env, s, txs, pk, Run(env, s, txs));
    }
  }

  /**
   Of all the bindings of pk that were sent, whether they went through or not, the first genuine one with the greatest
   epoch decides the owner; without one there is none.
   */
  lemma OwnerDecided(env: Env, txs: seq<Tx>, pk: Pk)
    ensures var t := Run(env, Deployed(), txs);
      && (pk in t.owners <==> exists k :: 0 <= k < |txs| && Claims(env, txs[k], pk))
      && (forall k :: 0 <= k < |txs| && Claims(env, txs[k], pk) ==> txs[k].epoch <= t.owners[pk].epoch)
      && (pk in t.owners ==> exists k ::
           0 <= k < |txs| && Leads(env, Deployed(), txs, pk, k) && t.owners[pk] == Owner(txs[k].sender, txs[k].epoch))
  {
    RunRules(env, Deployed(), txs, pk);
    hide Run, Claims;
  }

  // ---- what a name resolves to -------------------------------------------------------------------------------------

  predicate Newest(s: State, txs: seq<Tx>, addr: Address, name: string, k: nat)
    requires k < |txs|
  {
    && Posts(txs[k], addr, name)
    && txs[k].seqNo > SeqOf(s, addr, name)
    && forall j :: 0 <= j < k && Posts(txs[j], addr, name) ==> txs[j].seqNo < txs[k].seqNo
  }

  ghost predicate Settled(s: State, txs: seq<Tx>, addr: Address, name: string, t: State) {
    && (forall k :: 0 <= k < |txs| && Posts(txs[k], addr, name) ==> txs[k].seqNo <= SeqOf(t, addr, name))
    && SeqOf(s, addr, name) <= SeqOf(t, addr, name)
    && (SameRecord(s, t, addr, name)
        || exists k :: 0 <= k < |txs| && Newest(s, txs, addr, name, k) && RecordIs(t, addr, name, RecordOf(txs[k])))
  }

  lemma SettledStep(env: Env, s: State, txs: seq<Tx>, addr: Address, name: string, t: State)
    requires txs != [] && Settled(Step(env, s, txs[0]), txs[1..], addr, name, t)
    ensures Settled(s, txs, addr, name, t)
  {
    var u, rest := Step(env, s, txs[0]), txs[1..];
    PublishExact(env, s, txs[0], addr, name);
    hide Step, Posts;
    forall k | 0 <= k < |txs| && Posts(txs[k], addr, name) ensures txs[k].seqNo <= SeqOf(t, addr, name) {
      if k > 0 { assert rest[k - 1] == txs[k]; }
    }
    if SameRecord(u, t, addr, name) {
      if !SameRecord(s, u, addr, name) { assert Newest(s, txs, addr, name, 0); }
    } else {
      var k :| 0 <= k < |rest| && Newest(u, rest, addr, name, k) && RecordIs(t, addr, name, RecordOf(rest[k]));
      assert rest[k] == txs[k + 1];
      forall j | 0 <= j < k + 1 && Posts(txs[j], addr, name) ensures txs[j].seqNo < txs[k + 1].seqNo {
        if j > 0 { assert rest[j - 1] == txs[j]; }
      }
      assert Newest(s, txs, addr, name, k + 1);
    }
  }

  lemma {:induction false} RunSettles(env: Env, s: State, txs: seq<Tx>, addr: Address, name: string)
    ensures Settled(s, txs, addr, name, Run(env, s, txs))
    decreases txs
  {
    if txs == [] {
    } else {
      hide Settled, Step;
      RunSettles(env, Step(env, s, txs[0]), txs[1..], addr, name);
      SettledStep(env, s, txs, addr, name, Run(env, s, txs));
    }
  }

  /**
   Of all the publications of a name that its account sent, the first within the limits with the greatest number is what
   the name resolves to; without one there is no record.
   */
  lemma RecordDecided(env: Env, txs: seq<Tx>, addr: Address, name: string)
    ensures var t := Run(env, Deployed(), txs);
      && ((addr, name) in t.records <==> exists k :: 0 <= k < |txs| && Posts(txs[k], addr, name))
      && (forall k :: 0 <= k < |txs| && Posts(txs[k], addr, name) ==> txs[k].seqNo <= SeqOf(t, addr, name))
      && ((addr, name) in t.records ==> exists k ::
           0 <= k < |txs| && Newest(Deployed(), txs, addr, name, k) && RecordIs(t, addr, name, RecordOf(txs[k])))
  {
    RunSettles(env, Deployed(), txs, addr, name);
    hide Run;
    var t := Run(env, Deployed(), txs);
    assert forall k :: 0 <= k < |txs| && Posts(txs[k], addr, name) ==> SeqOf(t, addr, name) > 0;
  }

  // ---- which nodes are advertised ----------------------------------------------------------------------------------

  /** The last list within the limits that the account sent. */
  predicate LastList(txs: seq<Tx>, addr: Address, k: nat)
    requires k < |txs|
  {
    Lists(txs[k], addr) && forall j :: k < j < |txs| ==> !Lists(txs[j], addr)
  }

  /** It is what the account advertises, unchanged and in order; without one nothing changed. */
  lemma {:induction false} NodesDecided(env: Env, s: State, txs: seq<Tx>, addr: Address)
    ensures var t := Run(env, s, txs);
      && (forall k :: 0 <= k < |txs| && LastList(txs, addr, k) ==> addr in t.nodes && t.nodes[addr] == txs[k].list)
      && ((forall k :: 0 <= k < |txs| ==> !Lists(txs[k], addr)) ==> SameNodes(s, t, addr))
    decreases txs
  {
    if txs == [] {
    } else {
      var u, rest := Step(env, s, txs[0]), txs[1..];
      SetNodesExact(env, s, txs[0], addr);
      NodesDecided(env, u, rest, addr);
      hide Step, Lists;
      var t := Run(env, s, txs);
      assert forall k :: 0 < k < |txs| ==> rest[k - 1] == txs[k];
      forall k | 0 <= k < |txs| && LastList(txs, addr, k) ensures addr in t.nodes && t.nodes[addr] == txs[k].list {
        if k > 0 {
          assert LastList(rest, addr, k - 1);
        } else {
          assert forall j :: 0 <= j < |rest| ==> rest[j] == txs[j + 1];
        }
      }
    }
  }
}
