/** The write buffer in front of the cache (src/data_block_buffer.cpp). */
module DataBlockBuffers {
  import opened Wrappers
  import opened Bits
  import opened Words
  import opened Cachelines

  /** The last block written to an address. */
  function LastAt(blocks: seq<DataBlock>, address: U64): Option<DataBlock> {
    if blocks == [] then None
    else
      var last := blocks[|blocks| - 1];
      if last.address == address then Some(last) else LastAt(blocks[..|blocks| - 1], address)
  }

  lemma {:induction false} LastIsLast(blocks: seq<DataBlock>, address: U64, i: nat)
    requires i < |blocks| && blocks[i].address == address
    requires forall j | i < j < |blocks| :: blocks[j].address != address
    ensures LastAt(blocks, address) == Some(blocks[i])
    decreases |blocks|
  {
    if i < |blocks| - 1 {
      LastIsLast(blocks[..|blocks| - 1], address, i);
    }
  }

  lemma {:induction false} NoLast(blocks: seq<DataBlock>, address: U64)
    requires forall i | 0 <= i < |blocks| :: blocks[i].address != address
    ensures LastAt(blocks, address) == None
    decreases |blocks|
  {
    if blocks != [] {
      NoLast(blocks[..|blocks| - 1], address);
    }
  }

  class DataBlockBuffer {
    const capacity: nat
    var data: seq<DataBlock>
    var index: map<U64, nat>

    /** The index leads from every buffered address to its last block. */
    ghost predicate Valid()
      reads this
    {
      && (forall a | a in index :: index[a] < |data| && data[index[a]].address == a &&
                                   forall j | index[a] < j < |data| :: data[j].address != a)
      && (forall i | 0 <= i < |data| :: data[i].address in index)
    }

    constructor (capacity: nat)
      ensures Valid() && this.capacity == capacity && data == []
    {
      this.capacity := capacity;
      data, index := [], map[];
    }

    predicate IsFull()
      reads this
    {
      |data| >= capacity
    }

    method WriteLogicalBlock(b: DataBlock)
      requires Valid()
      modifies this
      ensures Valid() && data == old(data) + [b]
    {
      index := index[b.address := |data|];
      data := data + [b];
    }

    /** The raw bytes of the latest buffered write to the address, if there is one. */
    method TryReadLogicalDataBlock(address: U64) returns (raw: Option<seq<Byte>>)
      requires Valid()
      ensures raw == match LastAt(data, address) case None => None case Some(b) => Some(b.rawData)
    {
      if data == [] { return None; }
      if address !in index {
        NoLast(data, address);
        return None;
      }
      LastIsLast(data, address, index[address]);
      return Some(data[index[address]].rawData);
    }

    /** Empties the buffer, and its index with it. */
    method PopAll() returns (blocks: seq<DataBlock>)
      requires Valid()
      modifies this
      ensures Valid() && blocks == old(data) && data == []
    {
      blocks := data;
      data, index := [], map[];
    }
  }
}
