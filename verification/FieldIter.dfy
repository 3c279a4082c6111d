/** The cyclic field iterator of pb_common.c, with its running data pointer and count of
    required fields. */
module FieldIteration {
  import opened Messages
  import opened Decode

  // ---- Where fields live in the struct ---------------------------------------------------------

  /** Bytes the field's data takes in the struct. */
  function StorageSize(f: Field): nat {
    if f.htype.Repeated? || f.htype.FixedCount? then f.dataSize * f.arraySize else f.dataSize
  }

  /** Field `i` overlays the previous member of its union. */
  predicate SharesPrevious(fs: seq<Field>, i: nat)
    requires 0 < i < |fs|
  {
    fs[i - 1].htype.Oneof? && fs[i].htype.Oneof? && fs[i].dataOffset == PB_SIZE_MAX
  }

  /** The sum the iterator accumulates on its way to field `i`. */
  function RunningOffset(fs: seq<Field>, i: nat): (offset: nat)
    requires i < |fs|
  {
    if i == 0 then fs[0].dataOffset
    else if SharesPrevious(fs, i) then RunningOffset(fs, i - 1)
    else RunningOffset(fs, i - 1) + StorageSize(fs[i - 1]) + fs[i].dataOffset
  }

  /** Where the iterator takes the field's count, flag or `which_` to be; kept inside a union. */
  function RunningCounter(fs: seq<Field>, i: nat): (offset: int)
    requires i < |fs|
  {
    if i > 0 && SharesPrevious(fs, i) then RunningCounter(fs, i - 1) else RunningOffset(fs, i) + fs[i].sizeOffset
  }

  // ---- The struct the descriptors were generated for ---------------------------------------------

  /** A C struct. Field `i` lives in member number `member[i]`; `at` and `size` are the members' offsets
      and sizes, `counter` the offset of what counts or flags a member (its own if nothing does). */
  datatype Struct = Struct(member: seq<nat>, at: seq<nat>, size: seq<nat>, counter: seq<int>)

  /** What the compiler guarantees: members in order of declaration that do not overlap, each at least as
      large as every field in it, only unions holding more than one, and offsets of a `pb_size_t`. */
  ghost predicate LaidOut(fs: seq<Field>, s: Struct) {
    && |s.member| == |fs| && |s.at| == |s.size| == |s.counter|
    && (forall i | 0 <= i < |fs| :: s.member[i] < |s.at| && StorageSize(fs[i]) <= s.size[s.member[i]])
    && (forall i, j | 0 <= i < j < |fs| :: s.member[i] <= s.member[j])
    && (forall i, j | 0 <= i < j < |fs| && s.member[i] == s.member[j] :: fs[i].htype.Oneof? && fs[j].htype.Oneof?)
    && (forall u, v | 0 <= u < v < |s.at| :: s.at[u] + s.size[u] <= s.at[v])
    && (forall u | 0 <= u < |s.at| :: s.at[u] < PB_SIZE_MAX)
  }

  /** What the descriptor macros compute from `offsetof` and `sizeof`: the first offset as it is, the gap
      behind the previous field for later ones, no offset inside a union. */
  ghost predicate GeneratedFor(fs: seq<Field>, s: Struct)
    requires LaidOut(fs, s)
  {
    && (fs != [] ==> fs[0].dataOffset == s.at[s.member[0]])
    && (forall i | 0 < i < |fs| && s.member[i] == s.member[i - 1] :: fs[i].dataOffset == PB_SIZE_MAX)
    && (forall i | 0 < i < |fs| && s.member[i] != s.member[i - 1] ::
          fs[i].dataOffset == s.at[s.member[i]] - s.at[s.member[i - 1]] - StorageSize(fs[i - 1]))
    && (forall i | 0 <= i < |fs| :: fs[i].sizeOffset == s.counter[s.member[i]] - s.at[s.member[i]])
  }

  /** The iterator recognises unions. */
  lemma SharesMember(fs: seq<Field>, s: Struct, i: nat)
    requires LaidOut(fs, s) && GeneratedFor(fs, s) && 0 < i < |fs|
    ensures SharesPrevious(fs, i) <==> s.member[i] == s.member[i - 1]
  {
    hide StorageSize;
    if s.member[i] != s.member[i - 1] { assert s.at[s.member[i]] < PB_SIZE_MAX; }
  }

  /** The running sum is the offset of the member the field lives in, shared inside unions. */
  lemma {:induction false} RunningOffsetIsTrue(fs: seq<Field>, s: Struct, i: nat)
    requires LaidOut(fs, s) && GeneratedFor(fs, s) && i < |fs|
    ensures RunningOffset(fs, i) == s.at[s.member[i]]
  {
    hide StorageSize, SharesPrevious;
    if i > 0 {
      SharesMember(fs, s, i);
      RunningOffsetIsTrue(fs, s, i - 1);
    }
  }

  /** The running count pointer is the offset of the member's count, flag or `which_`. */
  lemma {:induction false} RunningCounterIsTrue(fs: seq<Field>, s: Struct, i: nat)
    requires LaidOut(fs, s) && GeneratedFor(fs, s) && i < |fs|
    ensures RunningCounter(fs, i) == s.counter[s.member[i]]
  {
    hide StorageSize, SharesPrevious, RunningOffset;
    RunningOffsetIsTrue(fs, s, i);
    if i > 0 {
      SharesMember(fs, s, i);
      RunningCounterIsTrue(fs, s, i - 1);
    }
  }

  /** Where the iterator puts two fields that are not in one union, their data does not overlap. */
  lemma FieldsDisjoint(fs: seq<Field>, s: Struct, i: nat, j: nat)
    requires LaidOut(fs, s) && GeneratedFor(fs, s) && i < j < |fs| && s.member[i] != s.member[j]
    ensures RunningOffset(fs, i) + StorageSize(fs[i]) <= RunningOffset(fs, j)
    ensures var f := fs[i];
            RunningOffset(fs, i) + (if f.htype.Repeated? || f.htype.FixedCount? then f.dataSize * f.arraySize else f.dataSize)
            <= RunningOffset(fs, j)
  {
    hide RunningOffset;
    RunningOffsetIsTrue(fs, s, i);
    RunningOffsetIsTrue(fs, s, j);
    var u, v := s.member[i], s.member[j];
    assert u < v && s.at[u] + s.size[u] <= s.at[v];
  }

  /** A field the search may stop at. */
  predicate Matches(f: Field, tag: nat) {
    f.tag == tag && !f.extension
  }

  class FieldIter {
    const fields: seq<Field>
    var pos: nat
    var requiredIndex: nat
    var dataOffset: nat
    var sizeOffset: int

    /** In every reachable state `dataOffset` and `sizeOffset`, the pointers into the struct, are the
        field's own, and `requiredIndex` counts the required fields in front of it. */
    ghost predicate Valid()
      reads this
    {
      && (if fields == [] then pos == 0 else pos < |fields|)
      && requiredIndex == RequiredBefore(fields, pos)
      && (fields != [] ==> dataOffset == RunningOffset(fields, pos) && sizeOffset == RunningCounter(fields, pos))
    }

    /** `pb_field_iter_begin`. */
    constructor (fields: seq<Field>)
      ensures Valid() && this.fields == fields && pos == 0
    {
      this.fields := fields;
      pos := 0;
      requiredIndex := 0;
      dataOffset := if fields == [] then 0 else fields[0].dataOffset;
      sizeOffset := if fields == [] then 0 else fields[0].dataOffset + fields[0].sizeOffset;
    }

    /** `pb_field_iter_next`: the next field, or back to the first one, which it reports. */
    method Next() returns (more: bool)
      requires Valid()
      modifies this
      ensures Valid()
      ensures more <==> old(pos) + 1 < |fields|
      ensures pos == if more then old(pos) + 1 else 0
    {
      if |fields| == 0 {
        // The descriptor list starts with its terminator.
        return false;
      }
      var prev := fields[pos];
      pos := pos + 1;
      if pos == |fields| {
        pos := 0;
        requiredIndex := 0;
        dataOffset := fields[0].dataOffset;
        sizeOffset := dataOffset + fields[0].sizeOffset;
        return false;
      }
      var prevSize := prev.dataSize;
      if prev.htype.Oneof? && fields[pos].htype.Oneof? && fields[pos].dataOffset == PB_SIZE_MAX {
        // Pointers stay put inside a union.
        return true;
      } else if prev.htype.Repeated? || prev.htype.FixedCount? {
        prevSize := prevSize * prev.arraySize;
      }
      if prev.htype.Required? {
        requiredIndex := requiredIndex + 1;
      }
      dataOffset := dataOffset + prevSize + fields[pos].dataOffset;
      sizeOffset := dataOffset + fields[pos].sizeOffset;
      return true;
    }

    /** In the struct the descriptors were generated for, both pointers are those of the member in which the
        current field lives. */
    lemma PointsAtField(s: Struct)
      requires Valid() && fields != [] && LaidOut(fields, s) && GeneratedFor(fields, s)
      ensures dataOffset == s.at[s.member[pos]] && sizeOffset == s.counter[s.member[pos]]
    {
      RunningOffsetIsTrue(fields, s, pos);
      RunningCounterIsTrue(fields, s, pos);
    }

    /** Whether walking cyclically from `start` reaches `j` before coming to `here`. */
    ghost predicate Passed(start: nat, here: nat, wrapped: bool, j: nat) {
      if wrapped then start <= j || j < here else start <= j < here
    }

    /** `pb_field_iter_find`: cyclic search from the current position; on failure the iterator is
        back where it was. The terminator of an empty list has tag 0 and matches it. */
    method Find(tag: nat) returns (found: bool)
      requires Valid()
      modifies this
      ensures Valid()
      ensures fields == [] ==> (found <==> tag == 0)
      ensures fields != [] ==> (found <==> exists i :: 0 <= i < |fields| && Matches(fields[i], tag))
      ensures found && fields != [] ==> Matches(fields[pos], tag)
      ensures !found ==> pos == old(pos)
    {
      if |fields| == 0 { return tag == 0; }
      var start := pos;
      ghost var wrapped := false;
      while true
        invariant Valid() && fields != [] && start < |fields|
        invariant if wrapped then pos < start else start <= pos
        invariant forall j | 0 <= j < |fields| && Passed(start, pos, wrapped, j) :: !Matches(fields[j], tag)
        decreases if wrapped then start - pos else |fields| + start - pos
      {
        if fields[pos].tag == tag && !fields[pos].extension {
          return true;
        }
        var more := Next();
        if !more { wrapped := true; }
        if pos == start {
          return false;
        }
      }
    }

    /** `find_extension_field`: the same walk for the extension pseudo-field. */
    method FindExtension() returns (found: bool)
      requires Valid()
      modifies this
      ensures Valid()
      ensures found <==> exists i :: 0 <= i < |fields| && fields[i].extension
      ensures found ==> pos < |fields| && fields[pos].extension
      ensures !found ==> pos == old(pos)
    {
      if |fields| == 0 { return false; }
      var start := pos;
      ghost var wrapped := false;
      while true
        invariant Valid() && fields != [] && start < |fields|
        invariant if wrapped then pos < start else start <= pos
        invariant forall j | 0 <= j < |fields| && Passed(start, pos, wrapped, j) :: !fields[j].extension
        decreases if wrapped then start - pos else |fields| + start - pos
      {
        if fields[pos].extension {
          return true;
        }
        var more := Next();
        if !more { wrapped := true; }
        if pos == start {
          return false;
        }
      }
    }

    /** The closing walk of `pb_decode_noinit`: the number of required fields of the message. */
    method CountRequired() returns (count: nat)
      requires Valid()
      modifies this
      ensures Valid()
      ensures count == RequiredBefore(fields, |fields|)
    {
      if |fields| == 0 {
        // The terminator's type reads as required, but its tag is zero.
        return requiredIndex;
      }
      var lastRequired;
      count := requiredIndex;
      lastRequired := fields[pos].htype.Required?;
      var more := Next();
      while more
        invariant Valid() && fields != []
        invariant more ==> pos > 0
        invariant count == RequiredBefore(fields, if more then pos - 1 else |fields| - 1)
        invariant lastRequired == fields[if more then pos - 1 else |fields| - 1].htype.Required?
        decreases if more then |fields| - pos else 0
      {
        count := requiredIndex;
        lastRequired := fields[pos].htype.Required?;
        more := Next();
      }
      if lastRequired {
        count := count + 1;
      }
    }
  }
}
