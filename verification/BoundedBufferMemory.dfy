/** The critical sections of `produce` and `consume` on the shared memory itself: an array of
    cells, two indices and a counter, updated in place. */
module BoundedBufferMemory {
  import opened BoundedBuffer
  import opened BoundedBufferSafety

  class SharedBuffer {
    var queue: array<Item>
    var readIndex: nat
    var writeIndex: nat
    var numOccupied: int

    /** The memory as the transition system sees it. */
    ghost function View(): Buffer
      reads this, queue
    {
      Buffer(queue[..], readIndex, writeIndex, numOccupied)
    }

    ghost predicate Valid()
      reads this, queue
    {
      && View().WellFormed() && 0 <= numOccupied <= queue.Length
      && writeIndex == Slot(queue[..], readIndex, numOccupied)
    }

    /** The items in the queue, oldest first. */
    ghost function Contents(): seq<Item>
      requires Valid()
      reads this, queue
    {
      Cells(queue[..], readIndex, numOccupied)
    }

    constructor (queueLen: nat, blank: Item)
      requires queueLen > 0
      ensures Valid() && Contents() == [] && queue.Length == queueLen && fresh(queue)
    {
      queue := new Item[queueLen](_ => blank);
      readIndex, writeIndex, numOccupied := 0, 0, 0;
    }

    /** Lines 76 to 80: the three statements a producer runs once it has seen a free cell. */
    method Produce(item: Item)
      requires Valid() && numOccupied < queue.Length
      modifies this, queue
      ensures Valid() && queue == old(queue) && readIndex == old(readIndex)
      ensures View() == UpdateCount(Producer, AdvanceIndex(Producer, StoreItem(old(View()), item)))
      ensures Contents() == old(Contents()) + [item]
    {
      ghost var before := queue[..];
      CellsAppend(before, readIndex, numOccupied, item);
      SlotNext(before, readIndex, numOccupied);
      queue[writeIndex] := item;
      assert queue[..] == before[writeIndex := item];
      writeIndex := (writeIndex + 1) % queue.Length;
      numOccupied := numOccupied + 1;
    }

    /** Lines 43 to 47: what a consumer runs once it has seen an occupied cell. */
    method Consume() returns (item: Item)
      requires Valid() && numOccupied > 0
      modifies this
      ensures Valid() && queue == old(queue) && writeIndex == old(writeIndex)
      ensures View() == UpdateCount(Consumer, AdvanceIndex(Consumer, old(View())))
      ensures old(Contents()) == [item] + Contents()
    {
      CellsDrop(queue[..], readIndex, numOccupied);
      SlotDrop(queue[..], readIndex, numOccupied);
      item := queue[readIndex];
      readIndex := (readIndex + 1) % queue.Length;
      numOccupied := numOccupied - 1;
    }
  }
}
