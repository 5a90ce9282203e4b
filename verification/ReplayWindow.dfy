/** DTLS1_BITMAP: a sliding window over the last 64 record numbers (RFC 6347 section 4.1.2.6). */
module ReplayWindow {
  const WINDOW: nat := 64
  const NUMBERS: nat := 0x1_0000_0000_0000_0000 // record numbers are 64 bits: epoch, then sequence

  /** The 64-bit `map` as its bits, least significant first. */
  type Word = w: seq<bool> | |w| == WINDOW witness seq(WINDOW, _ => false)

  const ZERO: Word := seq(WINDOW, _ => false)

  /** `w << shift` on a 64-bit word, for the shifts the C code makes. */
  function ShiftLeft(w: Word, shift: nat): Word
    requires shift < WINDOW
  {
    seq(WINDOW, i requires 0 <= i < WINDOW => i >= shift && w[i - shift])
  }

  /** What the window remembers of the set of numbers recorded so far: bit i stands for max - i. */
  ghost predicate Tracks(mask: Word, max: nat, seen: set<nat>) {
    && (forall n :: n in seen ==> n <= max)
    && forall i {:trigger mask[i]} :: 0 <= i < WINDOW && i <= max ==> (mask[i] <==> max - i in seen)
  }

  /** The numbers refused once those in `seen` were recorded: the recorded ones, and those 64 or more below one. */
  ghost predicate Refused(seen: set<nat>, n: nat) {
    n in seen || exists m :: m in seen && n + WINDOW <= m
  }

  class Dtls1Bitmap {
    var mask: Word
    var maxSeqNum: nat
    ghost var seen: set<nat>

    ghost predicate Valid()
      reads this
    {
      && maxSeqNum < NUMBERS
      && Tracks(mask, maxSeqNum, seen)
      && (maxSeqNum in seen || (seen == {} && maxSeqNum == 0))
    }

    constructor ()
      ensures Valid() && seen == {}
    {
      mask, maxSeqNum, seen := ZERO, 0, {};
    }

    /** OPENSSL_memset(&bitmap, 0), on a change of read epoch. */
    method Clear()
      modifies this
      ensures Valid() && seen == {}
    {
      mask, maxSeqNum, seen := ZERO, 0, {};
    }

    /** dtls1_bitmap_should_discard. */
    method ShouldDiscard(n: nat) returns (discard: bool)
      requires Valid()
      ensures discard <==> Refused(seen, n)
    {
      if n > maxSeqNum {
        return false;
      }
      var idx := maxSeqNum - n;
      discard := idx >= WINDOW || mask[idx];
      assert idx < WINDOW ==> (mask[idx] <==> maxSeqNum - idx in seen);
    }

    /** dtls1_bitmap_record. */
    method Record(n: nat)
      requires Valid() && n < NUMBERS
      modifies this
      ensures Valid() && seen == old(seen) + {n}
    {
      if n > maxSeqNum {
        var shift := n - maxSeqNum;
        if shift >= WINDOW {
          mask := ZERO;
        } else {
          mask := ShiftLeft(mask, shift);
        }
        maxSeqNum := n;
      }
      var idx := maxSeqNum - n;
      if idx < WINDOW {
        mask := mask[idx := true];
      }
      seen := seen + {n};
    }
  }
}
