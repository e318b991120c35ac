/**
 * Fee replacements of a solo anchor (`crates/opencsv-bitcoin/src/replacement.rs`).
 * The relay dust threshold of a script is the parameter `dust`.
 */
module Replacements {
  import opened Wrappers
  import opened Wire
  import opened Block
  import opened Anchors

  const RBF_SEQUENCE: u32 := 0xffff_fffd
  const MARKER_DUST_SATS := 546

  type DustLimit = Bytes -> nat

  datatype Receipt = Receipt(feeIncrement: nat, remainingChange: nat)

  /** `validate_layout`: record, marker, change, in that order. */
  predicate SoloLayout(tx: Transaction) {
    && tx.inputs != [] && |tx.outputs| == 3
    && tx.outputs[0].amount == 0 && |tx.outputs[0].scriptPubkey| == 66 && tx.outputs[0].scriptPubkey[..2] == [0x6a, 0x40]
    && tx.outputs[1].amount == MARKER_DUST_SATS && tx.outputs[1].scriptPubkey == MarkerSpk()
    && !(tx.outputs[2].scriptPubkey != [] && tx.outputs[2].scriptPubkey[0] == 0x6a)
  }

  ghost predicate DistinctOutpoints(inputs: seq<TxIn>) {
    forall i, j | 0 <= i < j < |inputs| :: inputs[i].prev != inputs[j].prev
  }

  ghost predicate AllReplaceable(inputs: seq<TxIn>) {
    forall i | 0 <= i < |inputs| :: inputs[i].sequence == RBF_SEQUENCE
  }

  /** When a replacement is accepted. */
  ghost predicate Accepted(dust: DustLimit, original: Transaction, next: Transaction) {
    && SoloLayout(original) && SoloLayout(next)
    && original.version == next.version && original.lockTime == next.lockTime
    && original.inputs <= next.inputs
    && DistinctOutpoints(next.inputs) && AllReplaceable(next.inputs)
    && original.outputs[..2] == next.outputs[..2]
    && original.outputs[2].scriptPubkey == next.outputs[2].scriptPubkey
    && dust(next.outputs[2].scriptPubkey) <= next.outputs[2].amount < original.outputs[2].amount
  }

  /** `validate_solo_anchor_replacement` */
  method Validate(dust: DustLimit, original: Transaction, next: Transaction) returns (r: Option<Receipt>)
    ensures r.Some? <==> Accepted(dust, original, next)
    ensures r.Some? ==> r.value == Receipt(original.outputs[2].amount - next.outputs[2].amount, next.outputs[2].amount)
  {
    hide MarkerSpk;
    if !SoloLayout(original) || !SoloLayout(next) {
      return None;
    }
    if original.version != next.version || original.lockTime != next.lockTime || |next.inputs| < |original.inputs|
       || exists i | 0 <= i < |original.inputs| :: original.inputs[i] != next.inputs[i] {
      return None;
    }
    var distinct := Distinct(next.inputs);
    if !distinct {
      return None;
    }
    if exists i | 0 <= i < |next.inputs| :: next.inputs[i].sequence != RBF_SEQUENCE {
      return None;
    }
    if original.outputs[0] != next.outputs[0] || original.outputs[1] != next.outputs[1]
       || original.outputs[2].scriptPubkey != next.outputs[2].scriptPubkey {
      return None;
    }
    assert original.outputs[..2] == next.outputs[..2];
    var oldChange, newChange := original.outputs[2].amount, next.outputs[2].amount;
    if newChange < dust(next.outputs[2].scriptPubkey) || oldChange <= newChange {
      return None;
    }
    r := Some(Receipt(oldChange - newChange, newChange));
  }

  method Distinct(inputs: seq<TxIn>) returns (ok: bool)
    ensures ok <==> DistinctOutpoints(inputs)
  {
    var seen: set<OutPoint> := {};
    for k := 0 to |inputs|
      invariant DistinctOutpoints(inputs[..k]) && seen == set i | 0 <= i < k :: inputs[i].prev
    {
      if inputs[k].prev in seen {
        return false;
      }
      seen := seen + {inputs[k].prev};
    }
    assert inputs[..|inputs|] == inputs;
    ok := true;
  }

  /** Two accepted replacements in a row are one accepted replacement, and their increments add up. */
  lemma AcceptedCompose(dust: DustLimit, a: Transaction, b: Transaction, c: Transaction)
    requires Accepted(dust, a, b) && Accepted(dust, b, c)
    ensures Accepted(dust, a, c)
    ensures a.outputs[2].amount - c.outputs[2].amount
         == (a.outputs[2].amount - b.outputs[2].amount) + (b.outputs[2].amount - c.outputs[2].amount)
  {
    hide MarkerSpk;
  }

  ghost predicate Run(dust: DustLimit, txs: seq<Transaction>) {
    forall i | 0 < i < |txs| :: Accepted(dust, txs[i - 1], txs[i])
  }

  /** A run of replacements is bounded by the change there was to spend above dust. */
  lemma {:induction false} RunsAreBounded(dust: DustLimit, txs: seq<Transaction>)
    requires |txs| > 1 && Run(dust, txs)
    ensures Accepted(dust, txs[0], txs[|txs| - 1])
    ensures txs[0].outputs[2].amount - txs[|txs| - 1].outputs[2].amount >= |txs| - 1
    ensures |txs| - 1 <= txs[0].outputs[2].amount - dust(txs[0].outputs[2].scriptPubkey)
    decreases |txs|
  {
    hide SoloLayout;
    var n := |txs| - 1;
    assert Accepted(dust, txs[n - 1], txs[n]);
    if n > 1 {
      assert Run(dust, txs[..n]);
      RunsAreBounded(dust, txs[..n]);
      AcceptedCompose(dust, txs[0], txs[n - 1], txs[n]);
    }
  }

  function InputValue(inputs: seq<TxIn>, worth: OutPoint -> nat): nat {
    if inputs == [] then 0 else worth(inputs[0].prev) + InputValue(inputs[1..], worth)
  }

  function Fee(tx: Transaction, worth: OutPoint -> nat): int
    requires |tx.outputs| == 3
  {
    InputValue(tx.inputs, worth) - tx.outputs[0].amount - tx.outputs[1].amount - tx.outputs[2].amount
  }

  lemma {:induction false} MoreInputsMoreValue(a: seq<TxIn>, b: seq<TxIn>, worth: OutPoint -> nat)
    requires a <= b
    ensures InputValue(a, worth) <= InputValue(b, worth)
  {
    if a != [] {
      MoreInputsMoreValue(a[1..], b[1..], worth);
    }
  }

  /** Whatever the coins are worth, the miner fee rises by at least the receipt's increment. */
  lemma FeeRises(dust: DustLimit, original: Transaction, next: Transaction, worth: OutPoint -> nat)
    requires Accepted(dust, original, next)
    ensures Fee(next, worth) >= Fee(original, worth) + (original.outputs[2].amount - next.outputs[2].amount) > Fee(original, worth)
  {
    hide MarkerSpk, InputValue;
    MoreInputsMoreValue(original.inputs, next.inputs, worth);
    assert original.outputs[..2][0] == next.outputs[..2][0] && original.outputs[..2][1] == next.outputs[..2][1];
  }
}
