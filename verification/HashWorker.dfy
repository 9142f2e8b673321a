/** The loop of one hash worker in the form of src/hash_file.rs. */
module HashWorker {
  import opened Wire
  import opened Geometry
  import opened HashPipeline

  class WorkerThread {
    const setup: Setup
    const id: nat
    var offset: nat
    var blockIdx: nat
    var filePos: nat
    var buffer: Bytes

    /** The worker keeps to its residue class and its offset is that of its block. */
    ghost predicate Aligned()
      reads this
    {
      id < setup.w && Owner(setup.w, blockIdx) == id && offset == Start(setup.layout, blockIdx)
    }

    /** At the head of the loop the file is positioned at the block, unless the file has ended. */
    ghost predicate Valid()
      reads this
    {
      Aligned() && (offset < setup.layout.size ==> filePos == offset)
    }

    /** The worker's state in the pipeline model, in a given phase. */
    function State(ph: Phase): Worker
      reads this
    {
      Worker(offset, blockIdx, filePos, ph)
    }

    constructor (setup: Setup, i: nat)
      requires i < setup.w
      ensures Valid() && this.setup == setup && id == i && blockIdx == i
      ensures State(LoopHead) == StartedWorker(setup.layout, i)
    {
      StartIsProduct(setup.layout, i);
      this.setup, id := setup, i;
      offset, blockIdx, filePos := i * setup.layout.bs, i, i * setup.layout.bs;
      buffer := [];
    }

    /** `read_exact` of the current block: any sequence of short reads ends in the same item. */
    method HashBlock(file: Bytes) returns (item: Item)
      requires Valid() && |file| == setup.layout.size && offset < setup.layout.size
      modifies this`filePos, this`buffer
      ensures Aligned() && IsItem(setup, file, blockIdx, item)
      ensures buffer == item.loan.data && filePos == offset + LenAt(setup.layout, offset)
    {
      var rem := setup.layout.size - offset;
      var len := if rem < setup.layout.bs then rem else setup.layout.bs;
      buffer := [];
      while |buffer| < len
        invariant |buffer| <= len && filePos == offset + |buffer| && buffer == file[offset..filePos]
        decreases len - |buffer|
      {
        var n :| 1 <= n <= len - |buffer|;
        assert buffer + file[filePos..filePos + n] == file[offset..filePos + n];
        buffer := buffer + file[filePos..filePos + n];
        filePos := filePos + n;
      }
      item := Item(blockIdx, setup.hash(buffer), Loan(buffer, id));
    }

    /** Seek over the other workers' blocks and go on with this worker's next index. */
    method Advance()
      requires Aligned() && offset < setup.layout.size && filePos == offset + LenAt(setup.layout, offset)
      modifies this
      ensures Valid() && buffer == old(buffer) && blockIdx == old(blockIdx) + setup.w
      ensures State(LoopHead) == AfterReclaim(setup, old(State(Lent)))
    {
      StartOfStride(setup.layout, blockIdx, setup.w);
      ScaleIsProduct(setup.layout.bs, setup.w);
      ScaleIsProduct(setup.layout.bs, setup.w - 1);
      filePos := filePos + (setup.w - 1) * setup.layout.bs;
      offset := offset + setup.w * setup.layout.bs;
      blockIdx := blockIdx + setup.w;
    }

    /** One pass of the loop. `Delivered` is the way through `send`, the reclaimed buffer and the seek; every other
        fate leaves the loop, and exactly the two I/O errors also close the channel. */
    method Pass(file: Bytes, fate: Fate) returns (sent: Option<Item>, go: bool, closes: bool)
      requires Valid() && |file| == setup.layout.size && offset < setup.layout.size
      modifies this
      ensures Aligned() && go == fate.Delivered? && closes == (fate.ReadFails? || fate.SeekFails?)
      ensures sent.Some? <==> fate.Delivered? || fate.SeekFails?
      ensures sent.Some? ==> IsItem(setup, file, old(blockIdx), sent.value)
      ensures go ==> Valid() && blockIdx == old(blockIdx) + setup.w && buffer == sent.value.loan.data
      ensures !go ==> blockIdx == old(blockIdx)
    {
      sent, go, closes := None, false, false;
      if fate.ErrorSeen? {
        return;
      }
      if fate.ReadFails? {
        closes := true;
        return;
      }
      var item := HashBlock(file);
      if fate.SendRefused? {
        return;
      }
      sent := Some(item);
      if fate.SeekFails? {
        closes := true;
        return;
      }
      Advance();
      go := true;
    }

    /** The whole loop, whatever happens to each pass: the items sent are the first blocks of the worker's residue
        class, in order; the worker stops at the end of the file or at the first pass that is not `Delivered`; and it
        closes the channel exactly when an I/O error of its own stopped it. */
    method Run(file: Bytes, fate: nat -> Fate) returns (items: seq<Item>, passes: nat, closes: bool)
      requires Valid() && |file| == setup.layout.size && blockIdx == id
      modifies this
      ensures AreItems(setup, file, id, items) && passes <= |items|
      ensures forall j :: 0 <= j < passes ==> fate(j).Delivered?
      ensures var more := InRange(setup.layout, Nth(setup.w, id, passes));
              && (more ==> !fate(passes).Delivered?)
              && |items| == passes + (if more && fate(passes).SeekFails? then 1 else 0)
              && (closes <==> more && (fate(passes).ReadFails? || fate(passes).SeekFails?))
    {
      hide AreItems, IsItem, Nth, Start, Owner, LenAt;
      NthSteps(setup, file, id);
      items, passes, closes := [], 0, false;
      while offset < setup.layout.size
        invariant Valid() && passes == |items| && blockIdx == Nth(setup.w, id, passes) && !closes
        invariant AreItems(setup, file, id, items)
        invariant forall j :: 0 <= j < passes ==> fate(j).Delivered?
        decreases setup.layout.size - offset
      {
        StartMonotone(setup.layout, blockIdx, blockIdx + setup.w);
        var sent, go;
        sent, go, closes := Pass(file, fate(passes));
        if sent.Some? {
          ItemsAppend(setup, file, id, items, sent.value);
          items := items + [sent.value];
        }
        if !go {
          return;
        }
        passes := passes + 1;
      }
    }
  }

  /** The j-th block of worker `id`. */
  function Nth(w: pos, id: nat, j: nat): nat {
    id + Scale(w, j)
  }

  /** These are the first blocks of worker `id`, in order. */
  ghost predicate AreItems(s: Setup, file: Bytes, id: nat, items: seq<Item>) {
    forall j :: 0 <= j < |items| ==> IsItem(s, file, Nth(s.w, id, j), items[j])
  }

  lemma NthSteps(s: Setup, file: Bytes, id: nat)
    ensures Nth(s.w, id, 0) == id && AreItems(s, file, id, [])
    ensures forall j: nat, k: nat :: k == j + 1 ==> Nth(s.w, id, k) == Nth(s.w, id, j) + s.w
  {
  }

  lemma ItemsAppend(s: Setup, file: Bytes, id: nat, items: seq<Item>, item: Item)
    requires AreItems(s, file, id, items) && IsItem(s, file, Nth(s.w, id, |items|), item)
    ensures AreItems(s, file, id, items + [item])
  {
  }

  /** What happens to one pass of a worker's loop: another worker's error is seen, the read fails, the channel is
      closed, the seek to the next block fails, or all goes well. */
  datatype Fate = ErrorSeen | ReadFails | SendRefused | SeekFails | Delivered

  /** What a sequential pass yields for block k. */
  ghost predicate IsItem(s: Setup, file: Bytes, k: nat, item: Item) {
    |file| == s.layout.size && InRange(s.layout, k) && item == ItemOf(s, file, k)
  }

  /** The residue classes partition the blocks: block k is item number k / w of worker k mod w and of no other. */
  lemma StridePartition(w: pos, k: nat, i: nat, j: nat)
    ensures i < w && k == Nth(w, i, j) <==> i == k % w && j == k / w
  {
    DivisionByScale(k, w);
    if j < k / w {
      StartMonotone(Layout(w, 0), j, k / w);
    } else if j > k / w {
      StartMonotone(Layout(w, 0), k / w, j);
    }
  }
}
