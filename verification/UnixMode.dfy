/** Unix permission bits as numbers, and the merge of requested settings into a mode. */
module UnixMode {
  import opened Wrappers

  /** Whether `mask`, a power of two, is set. */
  predicate HasBit(mode: nat, mask: nat)
    requires mask > 0
  {
    mode / mask % 2 == 1
  }

  function Push(n: nat, bit: bool): nat {
    2 * n + if bit then 1 else 0
  }

  function PushAll(n: nat, bits: seq<bool>): nat {
    if bits == [] then n else Push(PushAll(n, bits[..|bits| - 1]), bits[|bits| - 1])
  }

  function Power(k: nat): (r: nat)
    ensures r > 0
  {
    if k == 0 then 1 else 2 * Power(k - 1)
  }

  lemma PowerValues()
    ensures Power(0) == 1 && Power(1) == 2 && Power(2) == 4 && Power(3) == 8 && Power(4) == 16
    ensures Power(5) == 32 && Power(6) == 64 && Power(7) == 128 && Power(8) == 256
  {
    assert Power(4) == 2 * Power(3);
    assert Power(6) == 2 * Power(5);
  }

  lemma PushedBit(n: nat, bit: bool, mask: nat)
    requires mask in {1, 2, 4, 8, 16, 32, 64, 128}
    ensures HasBit(Push(n, bit), 1) == bit
    ensures HasBit(Push(n, bit), 2 * mask) == HasBit(n, mask)
  {
    var m := Push(n, bit);
    assert m / 2 == n;
    if mask == 1 { assert m / 2 == n / 1; }
    else if mask == 2 { assert m / 4 == n / 2; }
    else if mask == 4 { assert m / 8 == n / 4; }
    else if mask == 8 { assert m / 16 == n / 8; }
    else if mask == 16 { assert m / 32 == n / 16; }
    else if mask == 32 { assert m / 64 == n / 32; }
    else if mask == 64 { assert m / 128 == n / 64; }
    else { assert m / 256 == n / 128; }
  }

  /** The bit pushed `mask` before the last one is found under `mask`. */
  lemma {:induction false} BitUnder(n: nat, bits: seq<bool>, k: nat, mask: nat)
    requires k < |bits| <= 9 && mask == Power(|bits| - 1 - k)
    ensures HasBit(PushAll(n, bits), mask) == bits[k]
    decreases |bits|
  {
    var rest := bits[..|bits| - 1];
    PowerValues();
    if k == |bits| - 1 {
      PushedBit(PushAll(n, rest), bits[k], 1);
    } else {
      BitUnder(n, rest, k, mask / 2);
      PushedBit(PushAll(n, rest), bits[|bits| - 1], mask / 2);
    }
  }

  lemma {:induction false} PushedSize(bits: seq<bool>)
    ensures PushAll(0, bits) < Power(|bits|)
  {
    if bits == [] {
    } else {
      PushedSize(bits[..|bits| - 1]);
    }
  }

  // ----- Nine settings -----

  /** Read, write and execute for owner, group and others, in this order: on, off or left
      open. */
  type Settings = s: seq<Option<bool>> | |s| == 9 witness seq(9, k => None)

  /** The k-th of the nine bits of a mode, counted from the owner's read bit. */
  predicate BitAt(mode: nat, k: nat)
    requires k < 9
  {
    HasBit(mode, Power(8 - k))
  }

  /** `Permissions::from_unix_mode`. */
  function FromUnixMode(mode: nat): Settings {
    seq(9, k requires 0 <= k < 9 => Some(BitAt(mode, k)))
  }

  /** `Permissions::apply_from`. */
  function ApplyFrom(current: Settings, other: Settings): Settings {
    seq(9, k requires 0 <= k < 9 => if other[k].Some? then other[k] else current[k])
  }

  /** `Permissions::to_unix_mode`: what is left open counts as off. */
  function ToUnixMode(s: Settings): nat {
    PushAll(0, seq(9, k requires 0 <= k < 9 => s[k] == Some(true)))
  }

  /** `changed` is `mode` with the requested settings: each bit that is asked for has the value
      asked for, each other one its old value, and nothing stands above the nine bits. */
  ghost predicate IsMerged(mode: nat, changes: Settings, changed: nat) {
    && changed < 512
    && forall k :: 0 <= k < 9 ==> BitAt(changed, k) == if changes[k].Some? then changes[k].value else BitAt(mode, k)
  }

  lemma MergeMeans(mode: nat, changes: Settings)
    ensures IsMerged(mode, changes, ToUnixMode(ApplyFrom(FromUnixMode(mode), changes)))
  {
    hide HasBit, PushAll, Power;
    PowerValues();
    var s := ApplyFrom(FromUnixMode(mode), changes);
    var bits := seq(9, k requires 0 <= k < 9 => s[k] == Some(true));
    PushedSize(bits);
    PowerNine();
    forall k: nat | k < 9 ensures BitAt(ToUnixMode(s), k) == bits[k] {
      BitUnder(0, bits, k, Power(8 - k));
    }
  }

  lemma PowerNine()
    ensures Power(9) == 512
  {
    PowerValues();
  }
}
