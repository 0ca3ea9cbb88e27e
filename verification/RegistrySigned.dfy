/**
 The registry with the verifier it is deployed with (contracts/src/WebwayRegistry.sol:62-85 calling
 contracts/src/Ed25519.sol:37-68): what it takes to own a key.
 */
module RegistrySigned {
  import opened Options
  import opened Bytes
  import opened BindingText
  import opened Registry
  import E = Ed25519
  import Rfc = Ed25519Rfc
  import F = Ed25519Field
  import G = EdwardsGroup

  function Answer(v: E.Verdict): Option<bool> {
    match v
    case Revert => None
    case Reject => Some(false)
    case Accept => Some(true)
  }

  /** The registry on this chain, verifying with the contract's own code over this precompile. */
  function Deployment(chainId: nat, modexp: E.ModExp): Env {
    Env(chainId, (pk, sig, m) => Verifies(pk, sig, m, modexp))
  }

  function Verifies(pk: Pk, sig: Sig, m: seq<byte>, modexp: E.ModExp): Option<bool> {
    E.SquareConstants();
    Answer(E.Computed(pk, sig, m, modexp))
  }

  /** checkBinding with the verifier called: the deployed registry's answer. */
  method CheckBinding(chainId: nat, modexp: E.ModExp, pk: Pk, addr: Address, epoch: nat, sig: Sig, slack: seq<byte>)
    returns (ok: Option<bool>)
    requires addr < Pow256(20) && |pk| == 32 && |slack| >= 31
    ensures ok == if |sig| != 64 then Some(false)
      else Deployment(chainId, modexp).verifier(pk, sig, MessageBytes(chainId, addr, epoch))
  {
    if |sig| != 64 { return Some(false); }
    var m := ContractMessage(chainId, addr, epoch);
    hide MessageBytes, E.Computed;
    assert CharBytes(m) == MessageBytes(chainId, addr, epoch) by { MessageIs(chainId, addr, epoch); }
    var v := E.Verify(pk, sig, CharBytes(m), modexp, slack);
    ok := Answer(v);
  }

  lemma MessageIs(chainId: nat, addr: nat, epoch: nat)
    ensures CharBytes(BindingMessage(chainId, addr, epoch)) == MessageBytes(chainId, addr, epoch)
  {}

  /**
   What the arithmetic needs: p is prime as far as residues go, d is no square, addition associates, the precompile
   is exact.
   */
  ghost predicate Sound(modexp: E.ModExp) {
    && F.CURVE25519.Valid()
    && Rfc.PrimeField(F.CURVE25519) && G.Associative(F.CURVE25519) && Rfc.Exact(modexp)
  }

  lemma AcceptsIsRfc(chainId: nat, modexp: E.ModExp, pk: Pk, sig: Sig, addr: Address, epoch: nat)
    requires Sound(modexp) && |pk| == 32
    ensures Deployment(chainId, modexp).Accepts(pk, sig, addr, epoch)
      <==> Rfc.RfcAccepts(pk, sig, MessageBytes(chainId, addr, epoch))
    ensures Deployment(chainId, modexp).verifier(pk, sig, MessageBytes(chainId, addr, epoch)).Some?
  {
    hide MessageBytes, E.Computed, Rfc.RfcAccepts;
    Rfc.ComputedIsRfc(pk, sig, MessageBytes(chainId, addr, epoch), modexp);
  }

  /**
   A binding goes through exactly when its epoch is new and pk's RFC 8032 signature of chain, sender and epoch comes
   with it.
   */
  lemma BindsExactly(chainId: nat, modexp: E.ModExp, s: State, tx: Tx)
    requires Sound(modexp) && Typed(tx) && tx.Bind?
    ensures Refusal(Deployment(chainId, modexp), s, tx).None?
      <==> Above(s, tx.pk, tx.epoch) && Rfc.RfcAccepts(tx.pk, tx.sig, MessageBytes(chainId, tx.sender, tx.epoch))
  {
    var env, m := Deployment(chainId, modexp), MessageBytes(chainId, tx.sender, tx.epoch);
    assert env.chainId == chainId;
    hide MessageBytes, Rfc.RfcAccepts, Deployment;
    AcceptsIsRfc(chainId, modexp, tx.pk, tx.sig, tx.sender, tx.epoch);
    RfcLength(tx.pk, tx.sig, m);
    hide Sound;
    RefusalOfBind(env, s, tx);
  }

  lemma RfcLength(pk: Pk, sig: Sig, m: seq<byte>)
    requires F.CURVE25519.Valid()
    ensures Rfc.RfcAccepts(pk, sig, m) ==> |sig| == 64
  {}

  lemma RefusalOfBind(env: Env, s: State, tx: Tx)
    requires tx.Bind?
    ensures Refusal(env, s, tx).None?
      <==> |tx.sig| == 64 && Above(s, tx.pk, tx.epoch) && env.Accepts(tx.pk, tx.sig, tx.sender, tx.epoch)
  {
    hide MessageBytes;
  }

  /** The owner sent this transaction, with pk's RFC 8032 signature of the chain, the owner's account and the epoch. */
  ghost predicate Signed(pk: Pk, chainId: nat, o: Owner, tx: Tx)
    requires F.CURVE25519.Valid()
  {
    && tx.Bind? && tx.pk == pk && tx.sender == o.addr && tx.epoch == o.epoch
    && Rfc.RfcAccepts(pk, tx.sig, MessageBytes(chainId, o.addr, o.epoch))
  }

  /**
   After any history, whoever owns pk sent a transaction of that history carrying a signature that RFC 8032 accepts
   under pk, over exactly this chain, this account and this epoch, and no such transaction ever went through with a
   greater epoch.
   */
  lemma OwnerHoldsSignature(chainId: nat, modexp: E.ModExp, txs: seq<Tx>, pk: Pk)
    requires Sound(modexp) && |pk| == 32
    ensures var env := Deployment(chainId, modexp); var t := Run(env, Deployed(), txs);
      pk in t.owners ==>
        && (exists k :: 0 <= k < |txs| && Signed(pk, chainId, t.owners[pk], txs[k]))
        && forall i :: 0 <= i < |Bindings(env, Deployed(), txs, pk)| ==>
             Bindings(env, Deployed(), txs, pk)[i].owner.epoch <= t.owners[pk].epoch
  {
    hide *;
    var env := Deployment(chainId, modexp);
    OwnerIsGreatest(env, txs, pk);
    if pk in Run(env, Deployed(), txs).owners {
      var k := OwnerCarried(env, txs, pk);
      CarriedIsSigned(chainId, modexp, pk, txs[k]);
    }
  }

  lemma CarriedIsSigned(chainId: nat, modexp: E.ModExp, pk: Pk, tx: Tx)
    requires Sound(modexp) && |pk| == 32 && tx.Bind? && tx.pk == pk
    requires Deployment(chainId, modexp).Accepts(pk, tx.sig, tx.sender, tx.epoch)
    ensures Signed(pk, chainId, Owner(tx.sender, tx.epoch), tx)
  {
    hide Deployment, Rfc.RfcAccepts, MessageBytes;
    AcceptsIsRfc(chainId, modexp, pk, tx.sig, tx.sender, tx.epoch);
  }

  /** Unforgeability with the verifier spelled out: RFC 8032 signatures of pk that arrive are over what was signed. */
  ghost predicate UnforgedRfc(chainId: nat, txs: seq<Tx>, pk: Pk, signed: iset<seq<byte>>)
    requires F.CURVE25519.Valid()
  {
    forall tx ::
      && tx in txs && tx.Bind? && tx.pk == pk
      && Rfc.RfcAccepts(pk, tx.sig, MessageBytes(chainId, tx.sender, tx.epoch))
      ==> MessageBytes(chainId, tx.sender, tx.epoch) in signed
  }

  /**
   With unforgeability of what arrives: the holder of pk signed the message that names this chain, this account and
   this epoch, and names no other.
   */
  lemma OwnerAuthorised(chainId: nat, modexp: E.ModExp, txs: seq<Tx>, pk: Pk, signed: iset<seq<byte>>)
    requires Sound(modexp) && |pk| == 32 && forall i :: 0 <= i < |txs| ==> Typed(txs[i])
    requires UnforgedRfc(chainId, txs, pk, signed)
    ensures var t := Run(Deployment(chainId, modexp), Deployed(), txs);
      pk in t.owners ==> exists m :: m in signed && Names(m, chainId, t.owners[pk].addr, t.owners[pk].epoch)
  {
    var env := Deployment(chainId, modexp);
    assert env.chainId == chainId;
    hide Deployment, Run, Rfc.RfcAccepts, MessageBytes;
    forall tx | tx in txs && tx.Bind? && tx.pk == pk && env.Accepts(pk, tx.sig, tx.sender, tx.epoch)
      ensures MessageBytes(chainId, tx.sender, tx.epoch) in signed
    {
      AcceptsIsRfc(chainId, modexp, pk, tx.sig, tx.sender, tx.epoch);
    }
    OwnerWasSigned(env, txs, pk, signed);
  }
}
