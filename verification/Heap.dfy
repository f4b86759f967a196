/**
 * The per-CPU heap as it is stored: headers at addresses, linked from `head`, rewritten in place.
 * The ghost `list` is the chain of header addresses; `Blocks()` is the value that HeapSpec reasons about.
 */
module HeapImpl {
  import opened Base
  import opened HeapSpec

  datatype Header = Header(next: Option<nat>, size: nat, magic: Magic)

  type Memory = map<nat, Header>

  function After(list: seq<nat>, i: nat): Option<nat> {
    if i + 1 < |list| then Some(list[i + 1]) else None
  }

  /** `list` is the finite, acyclic chain that starts at `head`. */
  ghost predicate Chain(memory: Memory, head: nat, list: seq<nat>) {
    && |list| > 0 && head == list[0]
    && (forall i :: 0 <= i < |list| ==> list[i] in memory)
    && (forall i {:trigger After(list, i)} :: 0 <= i < |list| ==> memory[list[i]].next == After(list, i))
    && (forall i, j :: 0 <= i < j < |list| ==> list[i] != list[j])
  }

  ghost function View(memory: Memory, list: seq<nat>): (bs: HeapSpec.Blocks)
    requires forall i :: 0 <= i < |list| ==> list[i] in memory
    ensures |bs| == |list|
    ensures forall i :: 0 <= i < |list| ==> bs[i] == Block(list[i], memory[list[i]].size, memory[list[i]].magic)
  {
    seq(|list|, i requires 0 <= i < |list| => Block(list[i], memory[list[i]].size, memory[list[i]].magic))
  }

  // ----- the pointer updates, each matched with the step it performs on the block sequence -----

  /** Rewriting the size and state of one header changes that block only. */
  lemma RewriteHeader(memory: Memory, head: nat, list: seq<nat>, i: nat, size: nat, magic: Magic)
    requires Chain(memory, head, list) && i < |list|
    ensures var m := memory[list[i] := Header(memory[list[i]].next, size, magic)];
      && Chain(m, head, list)
      && View(m, list) == View(memory, list)[i := Block(list[i], size, magic)]
  {
    var m := memory[list[i] := Header(memory[list[i]].next, size, magic)];
    forall k | 0 <= k < |list| ensures k != i ==> list[k] != list[i] && m[list[k]] == memory[list[k]] {
    }
  }

  /** Memory after block `i` has absorbed the size of its successor and skipped over it. */
  function Absorbed(memory: Memory, list: seq<nat>, i: nat): Memory
    requires i + 1 < |list| && list[i] in memory && list[i + 1] in memory
  {
    var here, next := memory[list[i]], memory[list[i + 1]];
    memory[list[i] := Header(next.next, here.size + next.size, here.magic)]
  }

  lemma UnlinkNextChain(memory: Memory, head: nat, list: seq<nat>, i: nat)
    requires Chain(memory, head, list) && i + 1 < |list|
    ensures Chain(Absorbed(memory, list, i), head, Without(list, i + 1))
  {
    var m, rest := Absorbed(memory, list, i), Without(list, i + 1);
    forall k | 0 <= k < |rest| ensures m[rest[k]].next == After(rest, k) {
      if k == i {
        assert memory[list[i + 1]].next == After(list, i + 1);
      } else {
        var k' := if k < i then k else k + 1;
        assert list[k'] != list[i];
        assert memory[list[k']].next == After(list, k');
      }
    }
  }

  /** Pointing block `i` past its successor removes the successor from the chain. */
  lemma UnlinkNext(memory: Memory, head: nat, list: seq<nat>, i: nat)
    requires Chain(memory, head, list) && i + 1 < |list|
    ensures Chain(Absorbed(memory, list, i), head, Without(list, i + 1))
    ensures View(Absorbed(memory, list, i), Without(list, i + 1)) == MergeAt(View(memory, list), i)
  {
    UnlinkNextChain(memory, head, list, i);
    var m, rest := Absorbed(memory, list, i), Without(list, i + 1);
    var bs := View(memory, list);
    forall k | 0 <= k < |rest| ensures View(m, rest)[k] == MergeAt(bs, i)[k] {
      if k != i { assert list[if k < i then k else k + 1] != list[i]; }
    }
  }

  /** Growing the second block over the head and moving the head pointer removes the first block. */
  lemma UnlinkHead(memory: Memory, head: nat, list: seq<nat>)
    requires Chain(memory, head, list) && 1 < |list|
    ensures var first, next := memory[list[0]], memory[list[1]];
      var m := memory[list[1] := next.(size := next.size + first.size)];
      && Chain(m, list[1], list[1..])
      && View(m, list[1..]) == MergeHead(View(memory, list))
  {
    var first, next := memory[list[0]], memory[list[1]];
    var m := memory[list[1] := next.(size := next.size + first.size)];
    var rest := list[1..];
    forall k | 0 <= k < |rest|
      ensures rest[k] in m && m[rest[k]].next == After(rest, k) && (k > 0 ==> m[rest[k]] == memory[rest[k]])
    {
      assert rest[k] == list[k + 1] && memory[list[k + 1]].next == After(list, k + 1);
    }
    forall k | 0 <= k < |rest| ensures View(m, rest)[k] == MergeHead(View(memory, list))[k] {
      assert rest[k] == list[k + 1];
    }
  }

  /** Memory after block `i` has been cut down to `keep` bytes and a header for the rest put in front of `head`. */
  function Carved(memory: Memory, head: nat, block: nat, keep: nat): Memory
    requires block in memory && keep <= memory[block].size
  {
    memory[block := memory[block].(size := keep)][block + keep := Header(Some(head), memory[block].size - keep, InUse)]
  }

  lemma CarvedChain(memory: Memory, head: nat, list: seq<nat>, i: nat, keep: nat)
    requires Chain(memory, head, list) && i < |list| && keep <= memory[list[i]].size && list[i] + keep !in list
    ensures Chain(Carved(memory, head, list[i], keep), list[i] + keep, [list[i] + keep] + list)
  {
    var m, longer := Carved(memory, head, list[i], keep), [list[i] + keep] + list;
    forall k | 0 <= k < |longer| ensures longer[k] in m && m[longer[k]].next == After(longer, k) {
      if k > 0 {
        assert longer[k] == list[k - 1] && memory[list[k - 1]].next == After(list, k - 1);
      }
    }
  }

  /** Shrinking block `i` and linking a new header at its new end in front of the list carves the block. */
  lemma LinkCarved(memory: Memory, head: nat, list: seq<nat>, i: nat, req: nat, h: Area)
    requires Chain(memory, head, list) && i < |list|
    requires Inv(View(memory, list), h) && Enabled(View(memory, list), CarveStep(i, req))
    ensures var keep := memory[list[i]].size - req;
      var m, longer := Carved(memory, head, list[i], keep), [list[i] + keep] + list;
      && Chain(m, list[i] + keep, longer)
      && View(m, longer) == Carve(View(memory, list), i, req)
      && Inv(View(m, longer), h)
  {
    var bs := View(memory, list);
    var keep := memory[list[i]].size - req;
    assert list[i] + keep !in list by {
      CarvedAddressIsNew(bs, i, req, h);
      assert forall j :: 0 <= j < |list| ==> bs[j].addr == list[j];
    }
    CarvedChain(memory, head, list, i, keep);
    CarvedView(memory, head, list, i, keep);
    CarveKeepsInv(bs, i, req, h);
  }

  lemma CarvedView(memory: Memory, head: nat, list: seq<nat>, i: nat, keep: nat)
    requires Chain(memory, head, list) && i < |list| && keep <= memory[list[i]].size && list[i] + keep !in list
    requires Chain(Carved(memory, head, list[i], keep), list[i] + keep, [list[i] + keep] + list)
    ensures View(Carved(memory, head, list[i], keep), [list[i] + keep] + list)
         == Carve(View(memory, list), i, memory[list[i]].size - keep)
  {
    var m, longer := Carved(memory, head, list[i], keep), [list[i] + keep] + list;
    var cs := Carve(View(memory, list), i, memory[list[i]].size - keep);
    forall k | 0 <= k < |longer| ensures View(m, longer)[k] == cs[k] {
      if k > 0 {
        assert longer[k] == list[k - 1] && (k - 1 != i ==> list[k - 1] != list[i]);
      }
    }
  }

  class Heap {
    var memory: Memory
    var head: nat
    var headerSize: nat
    ghost var list: seq<nat>
    ghost var area: Area

    ghost predicate Linked()
      reads this
    {
      Chain(memory, head, list)
    }

    ghost function Blocks(): HeapSpec.Blocks
      requires Linked()
      reads this
    {
      View(memory, list)
    }

    ghost predicate Valid()
      reads this
    {
      Linked() && Inv(Blocks(), area) && headerSize == area.header
    }

    constructor Init(start: nat, size: nat, sizeOfHeader: nat)
      requires 0 < sizeOfHeader <= HEAP_BLOCK_SIZE && sizeOfHeader <= size
      ensures Valid() && area == Area(start, size, sizeOfHeader) && Blocks() == Initial(area)
    {
      memory := map[start := Header(None, size, HeapSpec.Free)];
      headerSize := sizeOfHeader;
      head := start;
      list := [start];
      area := Area(start, size, sizeOfHeader);
      InitialInv(Area(start, size, sizeOfHeader));
      new;
      assert Blocks() == Initial(area);
    }

    /** Give back a block: `ptr` is the address just past the header of some block of this heap. */
    method Free(ptr: nat) returns (r: Result<()>, ghost i: nat)
      requires Valid() && headerSize <= ptr && ptr - headerSize in list
      modifies this`memory
      ensures Valid() && list == old(list)
      ensures i < |list| && list[i] == ptr - headerSize
      ensures r == if old(Blocks())[i].magic == InUse then Ok(()) else Err(HeapNotInUse)
      ensures Blocks() == if r.Ok? then Apply(old(Blocks()), FreeStep(i)) else old(Blocks())
    {
      var block := ptr - headerSize;
      i :| 0 <= i < |list| && list[i] == block;
      match memory[block].magic
      case InUse =>
        RewriteHeader(memory, head, list, i, memory[block].size, HeapSpec.Free);
        memory := memory[block := memory[block].(magic := HeapSpec.Free)];
        r := Ok(());
        assert Blocks() == Apply(old(Blocks()), FreeStep(i));
        StepKeepsInv(old(Blocks()), FreeStep(i), area);
      case Free =>
        r := Err(HeapNotInUse);
    }

    /** Merge list neighbours in one pass, then the head corner case; report the largest merged block. */
    method Consolidate() returns (largest: nat)
      requires Linked()
      modifies this`memory, this`head, this`list
      ensures Linked()
      ensures Pass(Blocks(), largest) == HeapSpec.Consolidate(old(Blocks()))
    {
      largest := 0;
      var block := head;
      ghost var i := 0;
      assert memory[block].next == After(list, i);
      while memory[block].next.Some?
        invariant Linked() && 0 <= i < |list| && block == list[i] && memory[block].next == After(list, i)
        invariant PassFrom(Blocks(), i, largest) == PassFrom(old(Blocks()), 0, 0)
        decreases |list| - i
      {
        largest := MergeNext(block, largest, i);
        match memory[block].next {
          case Some(n) => block := n; i := i + 1; assert memory[block].next == After(list, i);
          case None => break;
        }
      }
      assert Pass(Blocks(), largest) == PassFrom(old(Blocks()), 0, 0);
      largest := MergeCorner(largest);
    }

    /** Merge a block with its successor if both are free and the successor lies just above it. */
    method MergeNext(block: nat, seen: nat, ghost i: nat) returns (largest: nat)
      requires Linked() && i + 1 < |list| && block == list[i]
      modifies this`memory, this`list
      ensures Linked() && i < |list| && block == list[i] && memory[block].next == After(list, i)
      ensures var bs := old(Blocks());
        if Mergeable(bs, i) then Blocks() == MergeAt(bs, i) && largest == Max(seen, bs[i].size + bs[i + 1].size)
        else Blocks() == bs && largest == seen
    {
      largest := seen;
      assert memory[block].next == After(list, i);
      var next := memory[block].next.value;
      if memory[block].magic == HeapSpec.Free && memory[next].magic == HeapSpec.Free && block + memory[block].size == next {
        UnlinkNext(memory, head, list, i);
        var merged := memory[block].size + memory[next].size;
        if merged > largest { largest := merged; }
        memory, list := memory[block := Header(memory[next].next, merged, memory[block].magic)], Without(list, i + 1);
        assert memory[block].next == After(list, i);
      }
    }

    /** The end of `consolidate`: the head of the list may lie just above the block after it. */
    method MergeCorner(seen: nat) returns (largest: nat)
      requires Linked()
      modifies this`memory, this`head, this`list
      ensures Linked()
      ensures Pass(Blocks(), largest) == Corner(Pass(old(Blocks()), seen))
    {
      largest := seen;
      assert memory[head].next == After(list, 0);
      if memory[head].magic == HeapSpec.Free {
        match memory[head].next {
          case Some(next) =>
            if memory[next].magic == HeapSpec.Free && next + memory[next].size == head {
              UnlinkHead(memory, head, list);
              memory := memory[next := memory[next].(size := memory[next].size + memory[head].size)];
              head := next;
              list := list[1..];
              if memory[next].size > largest { largest := memory[next].size; }
              assert Blocks() == MergeHead(old(Blocks()));
            }
          case None =>
        }
      }
    }

    /** Take block `k` whole. */
    method TakeWhole(search: nat, ghost k: nat)
      requires Valid() && k < |list| && list[k] == search
      modifies this`memory
      ensures Valid() && Blocks() == SetMagic(old(Blocks()), k, InUse)
    {
      SetMagicKeepsInv(Blocks(), k, InUse, area);
      RewriteHeader(memory, head, list, k, memory[search].size, InUse);
      memory := memory[search := memory[search].(magic := InUse)];
    }

    /** Carve the top `req` bytes off block `k` and put them, as a block in use, at the front of the list. */
    method CarveTop(search: nat, req: nat, ghost k: nat) returns (found: nat)
      requires Valid() && k < |list| && list[k] == search && Enabled(Blocks(), CarveStep(k, req))
      modifies this`memory, this`head, this`list
      ensures Valid() && Blocks() == Carve(old(Blocks()), k, req) && found == Blocks()[0].addr
    {
      LinkCarved(memory, head, list, k, req, area);
      var keep := memory[search].size - req;
      found := search + keep;
      var shorter := memory[search := memory[search].(size := keep)];
      ghost var carved := Carved(memory, head, search, keep);
      memory, head, list := shorter[found := Header(Some(head), req, InUse)], found, [found] + list;
      assert memory == carved;
    }

    /** Allocate room for `num` objects of `elemSize` bytes each; the result points past the header. */
    method Alloc(elemSize: nat, num: nat) returns (r: Result<nat>)
      requires Valid()
      modifies this`memory, this`head, this`list
      ensures Valid()
      ensures num == 0 ==> r == Err(HeapBadSize) && Blocks() == old(Blocks())
      ensures num > 0 ==>
        var s := Search(old(Blocks()), Required(headerSize, elemSize * num));
        && Blocks() == s.blocks
        && r == if s.Found? then Ok(s.block.addr + headerSize) else Err(HeapNoFreeMem)
    {
      if num == 0 { return Err(HeapBadSize); }
      var req := Required(headerSize, elemSize * num);
      r := AllocBlock(req);
    }

    /** The first fit has been found: take it whole if little would be left, otherwise carve its top. */
    method Serve(search: nat, req: nat, ghost k: nat) returns (found: nat)
      requires Valid() && 0 < req && req % HEAP_BLOCK_SIZE == 0
      requires k < |list| && list[k] == search && Fits(Blocks()[k], req)
      requires forall j :: 0 <= j < k ==> !Fits(Blocks()[j], req)
      modifies this`memory, this`head, this`list
      ensures Valid()
      ensures var s := Search(old(Blocks()), req); s.Found? && Blocks() == s.blocks && found == s.block.addr
    {
      SearchHits(Blocks(), req, k);
      if memory[search].size - req < HEAP_BLOCK_SIZE {
        TakeWhole(search, k);
        found := search;
      } else {
        found := CarveTop(search, req, k);
      }
    }

    /** The end of the list has been reached without a fit: consolidate, and give up if that gained nothing. */
    method GiveUp(req: nat) returns (hopeless: bool)
      requires Valid() && forall j :: 0 <= j < |list| ==> !Fits(Blocks()[j], req)
      modifies this`memory, this`head, this`list
      ensures Valid()
      ensures if hopeless then Search(old(Blocks()), req) == NotFound(Blocks())
              else |list| < |old(list)| && Search(old(Blocks()), req) == Search(Blocks(), req)
    {
      SearchMisses(Blocks(), req);
      ConsolidateKeepsInv(Blocks(), area);
      var gained := Consolidate();
      hopeless := gained < HEAP_BLOCK_SIZE;
    }

    /** The search itself, for a block of `req` bytes with its header. */
    method AllocBlock(req: nat) returns (r: Result<nat>)
      requires Valid() && 0 < req && req % HEAP_BLOCK_SIZE == 0
      modifies this`memory, this`head, this`list
      ensures Valid()
      ensures var s := Search(old(Blocks()), req);
        && Blocks() == s.blocks
        && r == if s.Found? then Ok(s.block.addr + headerSize) else Err(HeapNoFreeMem)
    {
      var done := false;
      var search := head;
      ghost var k := 0;
      while !done
        invariant Valid() && headerSize == old(headerSize)
        invariant !done ==> 0 <= k < |list| && search == list[k]
        invariant !done ==> forall j :: 0 <= j < k ==> !Fits(Blocks()[j], req)
        invariant !done ==> Search(Blocks(), req) == Search(old(Blocks()), req)
        invariant done ==> Search(old(Blocks()), req) == NotFound(Blocks())
        decreases !done, |list|, |list| - k
      {
        if memory[search].magic == HeapSpec.Free && memory[search].size >= req {
          var found := Serve(search, req, k);
          return Ok(found + headerSize);
        }
        assert memory[search].next == After(list, k);
        match memory[search].next {
          case None =>
            done := GiveUp(req);
            search := head;
            k := 0;
          case Some(n) =>
            search := n;
            k := k + 1;
        }
      }
      return Err(HeapNoFreeMem);
    }
  }

  /** The header of a carved block is written where no listed block begins. */
  lemma CarvedAddressIsNew(bs: HeapSpec.Blocks, k: nat, req: nat, h: Area)
    requires Inv(bs, h) && Enabled(bs, CarveStep(k, req))
    ensures forall j :: 0 <= j < |bs| ==> bs[j].addr != bs[k].End() - req
  {
    forall j | 0 <= j < |bs| ensures bs[j].addr != bs[k].End() - req {
      if j != k { assert Apart(bs[j], bs[k]); }
    }
  }
}
