/** The bit set of required fields in pb_decode_noinit, and the check of it at the end. */
module PbRequired {
  import opened PbMessage
  import opened PbIter

  const BITS: nat := 32

  /** A uint32_t as its bits, least significant first. */
  type Word = w: seq<bool> | |w| == BITS witness seq(BITS, _ => false)

  /** `allbits >> (32 - n)`. */
  function LowBits(n: nat): Word
    requires n <= BITS
  {
    seq(BITS, i => i < n)
  }

  const ALL_BITS: Word := LowBits(BITS)

  predicate Bit(words: seq<Word>, i: nat)
    requires |words| == 2 && i < MAX_REQUIRED
  {
    words[i / BITS][i % BITS]
  }

  /** Bit i stands for the i-th required field; bits past the last required field are clear. */
  ghost predicate Records(words: seq<Word>, fields: seq<Field>, seen: set<nat>) {
    && |words| == 2
    && (forall k :: 0 <= k < |fields| && MustOccur(fields, k) ==>
          (Bit(words, RequiredBefore(fields, k)) <==> k in seen))
    && forall i :: RequiredBefore(fields, |fields|) <= i < MAX_REQUIRED ==> !Bit(words, i)
  }

  lemma {:induction false} RequiredBeforeGrows(fields: seq<Field>, j: nat, k: nat)
    requires j <= k <= |fields|
    ensures RequiredBefore(fields, j) <= RequiredBefore(fields, k)
    ensures j < k && fields[j].htype.Required? ==> RequiredBefore(fields, j) < RequiredBefore(fields, k)
  {
    if j >= k {
    } else {
      RequiredBeforeGrows(fields, j, k - 1);
    }
  }

  /** Different required fields have different bits. */
  lemma OwnBit(fields: seq<Field>, j: nat, k: nat)
    requires j < |fields| && k < |fields| && fields[j].htype.Required? && fields[k].htype.Required? && j != k
    ensures RequiredBefore(fields, j) != RequiredBefore(fields, k)
  {
    if j < k { RequiredBeforeGrows(fields, j, k); } else { RequiredBeforeGrows(fields, k, j); }
  }

  /** Every number below the count is the number of some required field. */
  lemma {:induction false} NthRequired(fields: seq<Field>, n: nat, i: nat) returns (k: nat)
    requires n <= |fields| && i < RequiredBefore(fields, n)
    ensures k < n && fields[k].htype.Required? && RequiredBefore(fields, k) == i
  {
    if i < RequiredBefore(fields, n - 1) {
      k := NthRequired(fields, n - 1, i);
    } else {
      k := n - 1;
    }
  }

  /** All the bits below the count are set just if every one of the first 64 required fields occurred. */
  lemma BitsMeanSeen(words: seq<Word>, fields: seq<Field>, seen: set<nat>)
    requires Records(words, fields, seen)
    ensures RequiredSeen(fields, seen) <==>
              forall i :: 0 <= i < RequiredBefore(fields, |fields|) && i < MAX_REQUIRED ==> Bit(words, i)
  {
    if RequiredSeen(fields, seen) {
      forall i | 0 <= i < RequiredBefore(fields, |fields|) && i < MAX_REQUIRED ensures Bit(words, i) {
        var k := NthRequired(fields, |fields|, i);
      }
    } else {
      var k :| 0 <= k < |fields| && MustOccur(fields, k) && k !in seen;
      RequiredBeforeGrows(fields, k, |fields|);
      assert !Bit(words, RequiredBefore(fields, k));
    }
  }

  method Mark(fieldsSeen: array<Word>, index: nat)
    requires fieldsSeen.Length == 2 && index < MAX_REQUIRED
    modifies fieldsSeen
    ensures forall i :: 0 <= i < MAX_REQUIRED ==>
               (Bit(fieldsSeen[..], i) <==> i == index || Bit(old(fieldsSeen[..]), i))
  {
    fieldsSeen[index / BITS] := fieldsSeen[index / BITS][index % BITS := true];
    forall i | 0 <= i < MAX_REQUIRED
      ensures Bit(fieldsSeen[..], i) <==> i == index || Bit(old(fieldsSeen[..]), i)
    {
      SameBit(i, index);
    }
  }

  lemma SameBit(i: nat, j: nat)
    ensures i / BITS == j / BITS && i % BITS == j % BITS ==> i == j
  {
  }

  /** Marking the bit of field k records that it occurred; fields that are not required, and required ones past the
      first 64, have no bit. */
  lemma MarkRecords(before: seq<Word>, after: seq<Word>, fields: seq<Field>, seen: set<nat>, k: nat)
    requires Records(before, fields, seen) && k < |fields| && |after| == 2
    requires forall i :: 0 <= i < MAX_REQUIRED ==>
               (Bit(after, i) <==> (MustOccur(fields, k) && i == RequiredBefore(fields, k)) || Bit(before, i))
    ensures Records(after, fields, seen + {k})
  {
    hide RequiredBefore;
    forall j | 0 <= j < |fields| && MustOccur(fields, j)
      ensures Bit(after, RequiredBefore(fields, j)) <==> j in seen + {k}
    {
      if j != k && fields[k].htype.Required? { OwnBit(fields, j, k); }
    }
    if fields[k].htype.Required? { RequiredBeforeGrows(fields, k, |fields|); }
  }

  /** The end of pb_decode_noinit: count the required fields by walking to the last one, then compare whole words, then
      the remaining bits. */
  method AllRequiredSeen(iter: FieldIter, fieldsSeen: array<Word>, ghost seen: set<nat>) returns (ok: bool)
    requires iter.Valid() && Records(fieldsSeen[..], iter.fields, seen)
    modifies iter
    ensures ok <==> RequiredSeen(iter.fields, seen)
  {
    hide RequiredSeen;
    ghost var words := fieldsSeen[..];
    var count := CountRequired(iter);
    if count > MAX_REQUIRED {
      count := MAX_REQUIRED;
    }
    BitsMeanSeen(words, iter.fields, seen);
    assert fieldsSeen[..] == words;
    ok := WordsFull(fieldsSeen, words, count);
  }

  method CountRequired(iter: FieldIter) returns (count: nat)
    requires iter.Valid()
    modifies iter
    ensures count == RequiredBefore(iter.fields, |iter.fields|)
  {
    var lastRequired, more := false, true;
    count := 0;
    while more
      invariant iter.Valid()
      invariant !more ==> count + (if lastRequired && iter.fields != [] then 1 else 0)
                          == RequiredBefore(iter.fields, |iter.fields|)
      decreases more, |iter.fields| - iter.pos
    {
      count := iter.requiredIndex;
      lastRequired := iter.fields == [] || iter.fields[iter.pos].htype.Required?;
      more := iter.Next();
    }
    if lastRequired && iter.fields != [] {
      count := count + 1;
    }
  }

  method WordsFull(fieldsSeen: array<Word>, ghost words: seq<Word>, count: nat) returns (ok: bool)
    requires fieldsSeen[..] == words && |words| == 2 && count <= MAX_REQUIRED
    requires forall i :: count <= i < MAX_REQUIRED ==> !Bit(words, i)
    ensures ok <==> forall i :: 0 <= i < count ==> Bit(words, i)
  {
    hide Bit;
    for n := 0 to count / BITS
      invariant forall i :: 0 <= i < n * BITS ==> Bit(words, i)
    {
      WordTells(words, n, count);
      if fieldsSeen[n] != ALL_BITS {
        return false;
      }
    }
    if count % BITS != 0 {
      WordTells(words, count / BITS, count);
      if fieldsSeen[count / BITS] != LowBits(count % BITS) {
        return false;
      }
    }
    ok := true;
  }

  /** A word is what the check compares it with just if its bits below the count are set. */
  lemma WordTells(words: seq<Word>, n: nat, count: nat)
    requires |words| == 2 && n < 2 && n * BITS < count <= MAX_REQUIRED
    requires forall i :: count <= i < MAX_REQUIRED ==> !Bit(words, i)
    ensures var k := if count >= n * BITS + BITS then BITS else count - n * BITS;
            words[n] == LowBits(k) <==> forall i :: n * BITS <= i < n * BITS + k ==> Bit(words, i)
  {
    var k := if count >= n * BITS + BITS then BITS else count - n * BITS;
    forall j | 0 <= j < BITS ensures Bit(words, n * BITS + j) == words[n][j] {
      assert (n * BITS + j) / BITS == n && (n * BITS + j) % BITS == j;
    }
    if forall i :: n * BITS <= i < n * BITS + k ==> Bit(words, i) {
      assert words[n] == LowBits(k);
    } else {
      var i :| n * BITS <= i < n * BITS + k && !Bit(words, i);
      assert words[n][i - n * BITS] == Bit(words, n * BITS + (i - n * BITS));
      assert words[n][i - n * BITS] != LowBits(k)[i - n * BITS];
    }
  }
}
