/** pb_field_iter_t: a walk over the fields of a descriptor that resumes where the last search ended. */
module PbIter {
  import opened Wrappers
  import opened PbVarint
  import opened PbMessage

  const SIZE_MAX: nat := 0xFFFF_FFFF // PB_SIZE_MAX, with a 32-bit pb_size_t

  /** A further member of a oneof shares the storage of the member before it. */
  predicate SharesStorage(fields: seq<Field>, k: nat)
    requires 0 < k < |fields|
  {
    fields[k - 1].htype.Oneof? && fields[k].htype.Oneof? && fields[k].layout.dataOffset == SIZE_MAX
  }

  /** The room a static field takes in its struct. */
  function Room(f: Field): nat {
    if f.htype.Repeated? then f.layout.dataSize * f.htype.arraySize else f.layout.dataSize
  }

  /** Where field k lies in a struct at `base`, by adding up from the start. */
  function DataAt(fields: seq<Field>, base: nat, k: nat): nat
    requires k < |fields|
  {
    if k == 0 then base + fields[0].layout.dataOffset
    else if SharesStorage(fields, k) then DataAt(fields, base, k - 1)
    else DataAt(fields, base, k - 1) + Room(fields[k - 1]) + fields[k].layout.dataOffset
  }

  /** Where its has_ flag, count or which_ member lies. */
  function SizeAt(fields: seq<Field>, base: nat, k: nat): int
    requires k < |fields|
  {
    if k > 0 && SharesStorage(fields, k) then SizeAt(fields, base, k - 1)
    else DataAt(fields, base, k) + fields[k].layout.sizeOffset
  }

  predicate DistinctTags(fields: seq<Field>) {
    forall i, j :: 0 <= i < j < |fields| ==> fields[i].tag != fields[j].tag
  }

  /** A field whose tag no field met before it on the way round has is the one found. */
  lemma SearchIsNext(fields: seq<Field>, start: nat, k: nat)
    requires start < |fields| && k < |fields|
    requires forall i :: start <= i < |fields| && (i < k || k < start) ==> fields[i].tag != fields[k].tag
    requires forall i :: 0 <= i < k && k < start ==> fields[i].tag != fields[k].tag
    ensures Search(fields, start, fields[k].tag) == Some(k)
  {
    var tag := fields[k].tag;
    if k >= start {
      assert forall i :: 0 <= i < k - start ==> fields[start..][i] == fields[start + i];
      assert fields[start..][k - start] == fields[k];
      FindIsFirst(fields[start..], k - start);
    } else {
      assert forall i :: 0 <= i < |fields| - start ==> fields[start..][i] == fields[start + i];
      assert forall i :: 0 <= i < start ==> fields[..start][i] == fields[i];
      FindIsFirst(fields[..start], k);
    }
  }

  lemma {:induction false} FindIsFirst(fields: seq<Field>, k: nat)
    requires k < |fields| && forall i :: 0 <= i < k ==> fields[i].tag != fields[k].tag
    ensures Find(fields, fields[k].tag) == Some(k)
  {
    if k == 0 {
    } else {
      FindIsFirst(fields[1..], k - 1);
    }
  }

  /** The resuming search always finds what a scan from the start would exactly when the tags are distinct. */
  lemma ResumingIsScanning(fields: seq<Field>)
    ensures DistinctTags(fields) <==>
              forall pos: nat, tag: nat :: pos <= |fields| ==> Search(fields, pos, tag) == Find(fields, tag)
  {
    hide Search, Find;
    if DistinctTags(fields) {
      forall pos: nat, tag: nat | pos <= |fields| ensures Search(fields, pos, tag) == Find(fields, tag) {
        SearchIsFind(fields, pos, tag);
      }
    } else {
      var i, j :| 0 <= i < j < |fields| && fields[i].tag == fields[j].tag;
      TwinIsFound(fields, i, j);
    }
  }

  lemma SearchIsFind(fields: seq<Field>, pos: nat, tag: nat)
    requires DistinctTags(fields) && pos <= |fields|
    ensures Search(fields, pos, tag) == Find(fields, tag)
  {
    hide Search, Find;
    var s, f := Search(fields, pos, tag), Find(fields, tag);
    if s.Some? && f.Some? {
      assert fields[s.value].tag == fields[f.value].tag;
    }
  }

  /** Of two fields with one tag, a search from the second finds it, and a scan does not. */
  lemma TwinIsFound(fields: seq<Field>, i: nat, j: nat)
    requires i < j < |fields| && fields[i].tag == fields[j].tag
    ensures Search(fields, j, fields[j].tag) != Find(fields, fields[j].tag)
  {
    SearchIsNext(fields, j, j);
    FindIsLeast(fields, fields[j].tag, i);
    hide Search, Find;
  }

  lemma {:induction false} FindIsLeast(fields: seq<Field>, tag: nat, i: nat)
    requires i < |fields| && fields[i].tag == tag
    ensures Find(fields, tag).Some? && Find(fields, tag).value <= i
  {
    if fields[0].tag == tag {
    } else {
      FindIsLeast(fields[1..], tag, i - 1);
    }
  }

  class FieldIter {
    const fields: seq<Field>          // what precedes the terminator
    const base: nat                   // dest_struct
    var pos: nat                      // index of the current field; 0, the terminator, if there is none
    var pData: nat
    var pSize: int
    var requiredIndex: nat            // required_field_index

    /** The iterator is where a walk from the start would be when it reaches field k. */
    ghost predicate At(k: nat)
      reads this
    {
      && k < |fields| && pos == k
      && pData == DataAt(fields, base, k) && pSize == SizeAt(fields, base, k)
      && requiredIndex == RequiredBefore(fields, k)
    }

    ghost predicate Valid()
      reads this
    {
      if fields == [] then pos == 0 && requiredIndex == 0 else At(pos)
    }

    /** pb_field_iter_begin. */
    constructor (fields: seq<Field>, base: nat)
      ensures Valid() && pos == 0 && this.fields == fields && this.base == base
    {
      this.fields, this.base := fields, base;
      pos, requiredIndex := 0, 0;
      pData := base + if fields == [] then 0 else fields[0].layout.dataOffset;
      pSize := base + if fields == [] then 0 else fields[0].layout.dataOffset + fields[0].layout.sizeOffset;
    }

    method Begin()
      modifies this
      ensures Valid() && pos == 0
    {
      pos, requiredIndex := 0, 0;
      pData := base + if fields == [] then 0 else fields[0].layout.dataOffset;
      pSize := pData + if fields == [] then 0 else fields[0].layout.sizeOffset;
    }

    /** pb_field_iter_next: false when it has wrapped around to the first field. */
    method Next() returns (more: bool)
      requires Valid()
      modifies this
      ensures Valid()
      ensures more <==> old(pos) + 1 < |fields|
      ensures pos == if more then old(pos) + 1 else 0
    {
      if fields == [] {
        return false;
      }
      var prev := fields[pos];
      if pos + 1 == |fields| {
        Begin();
        return false;
      }
      pos := pos + 1;
      var prevSize := prev.layout.dataSize;
      if prev.htype.Oneof? && fields[pos].htype.Oneof? && fields[pos].layout.dataOffset == SIZE_MAX {
        return true;
      }
      if prev.htype.Repeated? {
        prevSize := prevSize * prev.htype.arraySize;
      }
      if prev.htype.Required? {
        requiredIndex := requiredIndex + 1;
      }
      pData := pData + prevSize + fields[pos].layout.dataOffset;
      pSize := pData + fields[pos].layout.sizeOffset;
      more := true;
    }

    /** pb_field_iter_find. It finds the next field with the tag, going on from where the last search ended and round
        again, with the pointers and the required index of a walk from the start; if there is none, it is back where
        it was. */
    method FindTag(tag: nat) returns (found: bool)
      requires Valid()
      modifies this
      ensures Valid()
      ensures fields == [] ==> (found <==> tag == 0)
      ensures fields != [] ==> (found <==> Search(fields, old(pos), tag).Some?)
      ensures fields != [] && found ==> At(Search(fields, old(pos), tag).value)
      ensures !found ==> pos == old(pos)
    {
      if fields == [] {
        var more := Next();
        return tag == 0;
      }
      var start := pos;
      ghost var steps := 0;
      while true
        invariant Valid() && steps < |fields|
        invariant pos == if start + steps < |fields| then start + steps else start + steps - |fields|
        invariant forall i :: start <= i < start + steps && i < |fields| ==> fields[i].tag != tag
        invariant forall i :: 0 <= i < start + steps - |fields| ==> fields[i].tag != tag
        decreases |fields| - steps
      {
        if fields[pos].tag == tag {
          SearchIsNext(fields, start, pos);
          return true;
        }
        var more := Next();
        steps := steps + 1;
        if pos == start {
          assert steps == |fields|;
          return false;
        }
      }
    }

    /** find_extension_field, for a descriptor without one: once round, and nothing is found. */
    method FindExtension() returns (found: bool)
      requires Valid()
      modifies this
      ensures Valid() && !found && pos == old(pos)
    {
      var start := pos;
      ghost var steps := 0;
      while true
        invariant Valid() && (fields != [] ==> steps < |fields|)
        invariant fields != [] ==> pos == if start + steps < |fields| then start + steps else start + steps - |fields|
        decreases |fields| - steps
      {
        var more := Next();
        steps := steps + 1;
        if pos == start {
          return false;
        }
      }
    }
  }
}
