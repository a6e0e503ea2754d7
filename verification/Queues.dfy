/** The queue object: bytes, offsets, lock counts and waiting lists updated in place.

    Each method is one critical section of queue.c.  Its contract says what it does to the deque
    of items (QueueRing) and that it takes the step of the same name in QueueProtocol.
 */
module Queues {
  import opened Bytes
  import opened QueueRing
  import opened SortedLists
  import P = QueueProtocol

  datatype Position = ToBack | ToFront | Overwrite

  // What an operation does to the items in the queue.
  function Sent(items: seq<seq<Byte>>, item: seq<Byte>, position: Position): seq<seq<Byte>> {
    match position
    case ToBack => items + [item]
    case ToFront => [item] + items
    case Overwrite => [item]
  }

  class Queue {
    const storage: array<Byte>
    const length: nat
    const itemSize: nat
    var writeTo: nat
    var readFrom: nat
    var messagesWaiting: nat
    var rxLock: int
    var txLock: int
    var waitingToSend: seq<Entry>
    var waitingToReceive: seq<Entry>
    ghost var lastRead: nat

    // Offsets are multiples of the item size, and the write slot is one past the last item.  A
    // queue of empty items (a semaphore) uses neither offset.
    ghost predicate Valid()
      reads this, storage
    {
      && 0 < length && storage.Length == length * itemSize
      && lastRead < length && readFrom == lastRead * itemSize
      && (0 < itemSize ==>
            && messagesWaiting <= length
            && writeTo == Place(lastRead, messagesWaiting, length) * itemSize)
    }

    ghost function Items(): (r: seq<seq<Byte>>)
      requires Valid()
      reads this, storage
      ensures |r| == messagesWaiting
    {
      if itemSize == 0 then seq(messagesWaiting, _ => [])
      else Contents(storage[..], itemSize, length, lastRead, messagesWaiting)
    }

    ghost function View(): P.Queue
      reads this
    {
      P.Queue(length, messagesWaiting, txLock, rxLock, waitingToSend, waitingToReceive)
    }

    constructor (n: nat, size: nat)
      requires 0 < n
      ensures Valid() && Items() == [] && fresh(storage)
      ensures length == n && itemSize == size
      ensures View() == P.Queue(n, 0, P.UNLOCKED, P.UNLOCKED, [], [])
    {
      length, itemSize := n, size;
      storage := new Byte[n * size];
      waitingToSend, waitingToReceive := [], [];
      messagesWaiting, rxLock, txLock := 0, P.UNLOCKED, P.UNLOCKED;
      writeTo := 0;
      readFrom := (n - 1) * size;
      lastRead := n - 1;
    }

    // An overwrite that is counted like any other item, because items have size 0.
    predicate Overcounts(position: Position) {
      itemSize == 0 && position == Overwrite
    }

    // prvCopyDataToQueue.  With empty items the position is not looked at: an overwrite of a full
    // semaphore is counted as one more.
    method CopyDataToQueue(item: seq<Byte>, position: Position)
      requires Valid() && |item| == itemSize
      requires position == Overwrite ==> length == 1
      requires messagesWaiting < length || position == Overwrite
      modifies this`writeTo, this`readFrom, this`messagesWaiting, this`lastRead, storage
      ensures Valid()
      ensures 0 < itemSize ==> Items() == Sent(old(Items()), item, position)
      ensures itemSize == 0 ==> messagesWaiting == old(messagesWaiting) + 1
      ensures position == ToFront ==> Items()[0] == item && Items()[1..] == old(Items())
      ensures position == ToBack ==> Items() == old(Items()) + [item]
      ensures position == Overwrite && 0 < itemSize ==> Items() == [item]
      ensures messagesWaiting <= length <==>
                old(messagesWaiting) < length || (0 < itemSize && position == Overwrite)
    {
      var count := messagesWaiting;
      if itemSize == 0 {
        messagesWaiting := count + 1;
      } else if position == ToBack {
        CopyToBack(item);
      } else {
        if position == Overwrite && 0 < count {
          count := count - 1;
        }
        CopyToFront(item, position, count);
      }
    }

    // The branch for queueSEND_TO_BACK, with the final count.
    method CopyToBack(item: seq<Byte>)
      requires Valid() && 0 < itemSize == |item| && messagesWaiting < length
      modifies this`writeTo, this`messagesWaiting, storage
      ensures Valid() && messagesWaiting == old(messagesWaiting) + 1
      ensures Items() == old(Items()) + [item]
    {
      PushBack(storage[..], itemSize, length, lastRead, messagesWaiting, item);
      WrapsAtTail(Place(lastRead, messagesWaiting, length));
      CopyIn(storage, writeTo, item);
      writeTo := writeTo + itemSize;
      if storage.Length <= writeTo {
        writeTo := 0;
      }
      messagesWaiting := messagesWaiting + 1;
    }

    // The branch for queueSEND_TO_FRONT and queueOVERWRITE; `count` is what the copy adds one to.
    method CopyToFront(item: seq<Byte>, position: Position, count: nat)
      requires Valid() && 0 < itemSize == |item| && position != ToBack
      requires position == Overwrite ==> length == 1 && count == 0
      requires position == ToFront ==> count == messagesWaiting < length
      modifies this`readFrom, this`lastRead, this`messagesWaiting, storage
      ensures Valid() && messagesWaiting == count + 1
      ensures Items() == Sent(old(Items()), item, position)
      ensures position == ToFront ==> Items()[0] == item && Items()[1..] == old(Items())
    {
      if position == Overwrite {
        OverwriteOnly(storage[..], itemSize, messagesWaiting, item);
      } else {
        PushFront(storage[..], itemSize, length, lastRead, count, item);
      }
      WrapsAtHead(lastRead);
      CopyIn(storage, readFrom, item);
      if readFrom < itemSize {
        readFrom := storage.Length - itemSize;
      } else {
        readFrom := readFrom - itemSize;
      }
      lastRead := Previous(lastRead, length);
      messagesWaiting := count + 1;
    }

    // Stepping an offset forward reaches the tail exactly at the last slot.
    lemma WrapsAtTail(i: nat)
      requires i < length && 0 < itemSize
      ensures i * itemSize + itemSize == (i + 1) * itemSize
      ensures length * itemSize <= i * itemSize + itemSize <==> i + 1 == length
    {
      if i + 1 < length {
        SlotOrder(i + 1, length, itemSize);
      }
    }

    lemma WrapsAtHead(i: nat)
      requires i < length && 0 < itemSize
      ensures i * itemSize < itemSize <==> i == 0
      ensures 0 < i ==> i * itemSize - itemSize == (i - 1) * itemSize
      ensures length * itemSize - itemSize == (length - 1) * itemSize
    {
      if 0 < i {
        SlotOrder(0, i, itemSize);
      }
    }

    // prvCopyDataFromQueue: steps to the next slot and copies it out.
    method CopyDataFromQueue() returns (item: seq<Byte>)
      requires Valid() && 0 < messagesWaiting
      modifies this`readFrom, this`lastRead
      ensures lastRead == if itemSize == 0 then old(lastRead) else Place(old(lastRead), 0, length)
      ensures lastRead < length && readFrom == lastRead * itemSize
      ensures item == old(Items())[0]
    {
      if itemSize != 0 {
        PopFront(storage[..], itemSize, length, lastRead, messagesWaiting);
        WrapsAtTail(lastRead);
        readFrom := readFrom + itemSize;
        if storage.Length <= readFrom {
          readFrom := 0;
        }
        lastRead := Place(lastRead, 0, length);
        SlotBounds(lastRead, length, itemSize);
        item := storage[readFrom..readFrom + itemSize];
        assert item == Slot(storage[..], itemSize, length, lastRead);
      } else {
        item := [];
      }
    }

    // ---- Waiting lists ----

    // xTaskRemoveFromEventList on each list, guarded by the emptiness test of its callers.
    method WakeReceiver() returns (woken: seq<nat>)
      modifies this`waitingToReceive
      ensures P.Outcome(View(), woken) == P.WakeReceiver(old(View()))
    {
      woken := [];
      if waitingToReceive != [] {
        woken := [waitingToReceive[0].id];
        waitingToReceive := waitingToReceive[1..];
      }
    }

    method WakeSender() returns (woken: seq<nat>)
      modifies this`waitingToSend
      ensures P.Outcome(View(), woken) == P.WakeSender(old(View()))
    {
      woken := [];
      if waitingToSend != [] {
        woken := [waitingToSend[0].id];
        waitingToSend := waitingToSend[1..];
      }
    }

    // vTaskPlaceOnEventList: in priority order, behind tasks of the same priority.
    method PlaceOnSendList(task: nat, priorityKey: nat)
      modifies this`waitingToSend
      ensures View() == old(View()).(toSend := InsertSorted(old(waitingToSend), Entry(task, priorityKey)))
    {
      waitingToSend := InsertSorted(waitingToSend, Entry(task, priorityKey));
    }

    method PlaceOnReceiveList(task: nat, priorityKey: nat)
      modifies this`waitingToReceive
      ensures View() == old(View()).(toReceive := InsertSorted(old(waitingToReceive), Entry(task, priorityKey)))
    {
      waitingToReceive := InsertSorted(waitingToReceive, Entry(task, priorityKey));
    }

    // ---- Critical sections of tasks ----

    // The first critical section of xQueueGenericSend.
    method TrySend(item: seq<Byte>, position: Position) returns (sent: bool, woken: seq<nat>)
      requires Valid() && |item| == itemSize
      requires position == Overwrite ==> length == 1
      modifies this, storage
      ensures Valid()
      ensures sent <==> P.HasRoom(old(View()), position == Overwrite)
      ensures sent && !Overcounts(position) ==>
                P.Outcome(View(), woken) == P.TaskSend(old(View()), position == Overwrite)
      ensures sent && Overcounts(position) ==>
                P.Outcome(View(), woken) == P.TaskSend(old(View()), false)
      ensures sent && 0 < itemSize ==> Items() == Sent(old(Items()), item, position)
      ensures sent && position == ToFront ==> Items()[0] == item && Items()[1..] == old(Items())
      ensures sent && position == ToBack ==> Items() == old(Items()) + [item]
      ensures sent && position == Overwrite && 0 < itemSize ==> Items() == [item]
      ensures !sent ==> View() == old(View()) && Items() == old(Items()) && woken == []
    {
      sent, woken := false, [];
      if messagesWaiting < length || position == Overwrite {
        CopyDataToQueue(item, position);
        woken := WakeReceiver();
        sent := true;
      }
    }

    // The first critical section of xQueueReceive and of xQueueSemaphoreTake.
    method TryReceive() returns (received: bool, item: seq<Byte>, woken: seq<nat>)
      requires Valid()
      modifies this
      ensures Valid()
      ensures received <==> 0 < old(messagesWaiting)
      ensures received ==> P.Outcome(View(), woken) == P.TaskReceive(old(View()))
      ensures received ==> item == old(Items())[0] && Items() == old(Items())[1..]
      ensures !received ==> View() == old(View()) && Items() == old(Items()) && woken == []
    {
      received, item, woken := false, [], [];
      if 0 < messagesWaiting {
        item := TakeOut();
        woken := WakeSender();
        received := true;
      }
    }

    method TakeOut() returns (item: seq<Byte>)
      requires Valid() && 0 < messagesWaiting
      modifies this`readFrom, this`lastRead, this`messagesWaiting
      ensures Valid() && messagesWaiting == old(messagesWaiting) - 1
      ensures item == old(Items())[0] && Items() == old(Items())[1..]
    {
      if itemSize != 0 {
        PopFront(storage[..], itemSize, length, lastRead, messagesWaiting);
      }
      item := CopyDataFromQueue();
      messagesWaiting := messagesWaiting - 1;
    }

    // The first critical section of xQueuePeek: the read offset is put back.
    method TryPeek() returns (seen: bool, item: seq<Byte>, woken: seq<nat>)
      requires Valid()
      modifies this
      ensures Valid()
      ensures seen <==> 0 < old(messagesWaiting)
      ensures seen ==> P.Outcome(View(), woken) == P.TaskPeek(old(View())) && item == old(Items())[0]
      ensures !seen ==> View() == old(View()) && woken == []
      ensures Items() == old(Items())
    {
      seen, item, woken := false, [], [];
      if 0 < messagesWaiting {
        var originalReadPosition := readFrom;
        ghost var r := lastRead;
        item := CopyDataFromQueue();
        readFrom := originalReadPosition;
        lastRead := r;
        woken := WakeReceiver();
        seen := true;
      }
    }

    // ---- Interrupts ----

    // xQueueGenericSendFromISR; xQueueGiveFromISR is the case of empty items.
    method SendFromISR(item: seq<Byte>, position: Position) returns (sent: bool, woken: seq<nat>)
      requires Valid() && |item| == itemSize
      requires position == Overwrite ==> length == 1
      modifies this, storage
      ensures Valid()
      ensures sent <==> P.HasRoom(old(View()), position == Overwrite)
      ensures sent && !Overcounts(position) ==>
                P.Outcome(View(), woken) == P.IsrSend(old(View()), position == Overwrite)
      ensures sent && Overcounts(position) ==>
                P.Outcome(View(), woken) == P.IsrSend(old(View()), false)
      ensures sent && 0 < itemSize ==> Items() == Sent(old(Items()), item, position)
      ensures sent && position == ToFront ==> Items()[0] == item && Items()[1..] == old(Items())
      ensures sent && position == ToBack ==> Items() == old(Items()) + [item]
      ensures sent && position == Overwrite && 0 < itemSize ==> Items() == [item]
      ensures !sent ==> View() == old(View()) && Items() == old(Items()) && woken == []
    {
      sent, woken := false, [];
      if messagesWaiting < length || position == Overwrite {
        var lock := txLock;
        CopyDataToQueue(item, position);
        if lock == P.UNLOCKED {
          woken := WakeReceiver();
        } else {
          txLock := P.Int8(lock + 1);
        }
        sent := true;
      }
    }

    method ReceiveFromISR() returns (received: bool, item: seq<Byte>, woken: seq<nat>)
      requires Valid()
      modifies this
      ensures Valid()
      ensures received <==> 0 < old(messagesWaiting)
      ensures received ==> P.Outcome(View(), woken) == P.IsrReceive(old(View()))
      ensures received ==> item == old(Items())[0] && Items() == old(Items())[1..]
      ensures !received ==> View() == old(View()) && Items() == old(Items()) && woken == []
    {
      received, item, woken := false, [], [];
      if 0 < messagesWaiting {
        var lock := rxLock;
        item := TakeOut();
        if lock == P.UNLOCKED {
          woken := WakeSender();
        } else {
          rxLock := P.Int8(lock + 1);
        }
        received := true;
      }
    }

    // ---- Locking ----

    method LockQueue()
      modifies this`rxLock, this`txLock
      ensures View() == P.Lock(old(View()))
    {
      if rxLock == P.UNLOCKED {
        rxLock := P.LOCKED_UNMODIFIED;
      }
      if txLock == P.UNLOCKED {
        txLock := P.LOCKED_UNMODIFIED;
      }
    }

    // The two critical sections of prvUnlockQueue.
    method UnlockTx() returns (woken: seq<nat>)
      modifies this`txLock, this`waitingToReceive
      ensures P.Outcome(View(), woken) == P.UnlockTx(old(View()))
    {
      var lock := txLock;
      woken := [];
      ghost var waiting := waitingToReceive;
      ghost var k := P.Deferred(txLock, |waiting|);
      while P.LOCKED_UNMODIFIED < lock
        invariant txLock == old(txLock)
        invariant |woken| <= |waiting| && lock == txLock - |woken| && (|woken| == 0 || 0 <= lock)
        invariant waitingToReceive == waiting[|woken|..]
        invariant woken == P.Ids(waiting[..|woken|])
        decreases lock
      {
        if waitingToReceive == [] {
          break;
        }
        assert |woken| < |waiting|;
        var w := WakeReceiver();
        assert w == [waiting[|woken|].id];
        assert waiting[..|woken| + 1] == waiting[..|woken|] + [waiting[|woken|]];
        woken := woken + w;
        lock := lock - 1;
      }
      assert |woken| == k;
      txLock := P.UNLOCKED;
    }

    method UnlockRx() returns (woken: seq<nat>)
      modifies this`rxLock, this`waitingToSend
      ensures P.Outcome(View(), woken) == P.UnlockRx(old(View()))
    {
      var lock := rxLock;
      woken := [];
      ghost var waiting := waitingToSend;
      ghost var k := P.Deferred(rxLock, |waiting|);
      while P.LOCKED_UNMODIFIED < lock
        invariant rxLock == old(rxLock)
        invariant |woken| <= |waiting| && lock == rxLock - |woken| && (|woken| == 0 || 0 <= lock)
        invariant waitingToSend == waiting[|woken|..]
        invariant woken == P.Ids(waiting[..|woken|])
        decreases lock
      {
        if waitingToSend == [] {
          break;
        }
        assert |woken| < |waiting|;
        var w := WakeSender();
        assert w == [waiting[|woken|].id];
        assert waiting[..|woken| + 1] == waiting[..|woken|] + [waiting[|woken|]];
        woken := woken + w;
        lock := lock - 1;
      }
      assert |woken| == k;
      rxLock := P.UNLOCKED;
    }

    // ---- The slow paths, when no interrupt falls inside ----

    // A send that found no room: with the queue locked, the task goes on the list exactly if the
    // queue is (still) full and the time-out has not expired; nothing else changes.
    method BlockOnSend(task: nat, priorityKey: nat, expired: bool) returns (waits: bool)
      requires txLock == rxLock == P.UNLOCKED
      modifies this`rxLock, this`txLock, this`waitingToSend, this`waitingToReceive
      ensures waits <==> !expired && messagesWaiting == length
      ensures View() == if waits
                        then old(View()).(toSend := InsertSorted(old(waitingToSend), Entry(task, priorityKey)))
                        else old(View())
    {
      LockQueue();
      waits := false;
      if !expired {
        if messagesWaiting == length {
          PlaceOnSendList(task, priorityKey);
          waits := true;
        }
      }
      var _ := UnlockTx();
      var _ := UnlockRx();
    }

    method BlockOnReceive(task: nat, priorityKey: nat, expired: bool) returns (waits: bool)
      requires txLock == rxLock == P.UNLOCKED
      modifies this`rxLock, this`txLock, this`waitingToSend, this`waitingToReceive
      ensures waits <==> !expired && messagesWaiting == 0
      ensures View() == if waits
                        then old(View()).(toReceive := InsertSorted(old(waitingToReceive), Entry(task, priorityKey)))
                        else old(View())
    {
      LockQueue();
      waits := false;
      if !expired {
        if messagesWaiting == 0 {
          PlaceOnReceiveList(task, priorityKey);
          waits := true;
        }
      }
      var _ := UnlockTx();
      var _ := UnlockRx();
    }

    // xQueueGenericReset of a queue in use: emptied, and one waiting sender is woken.
    method Reset() returns (woken: seq<nat>)
      requires Valid()
      modifies this
      ensures Valid() && Items() == []
      ensures txLock == rxLock == P.UNLOCKED && waitingToReceive == old(waitingToReceive)
      ensures if old(waitingToSend) == [] then waitingToSend == [] && woken == []
              else waitingToSend == old(waitingToSend)[1..] && woken == [old(waitingToSend)[0].id]
      ensures P.Outcome(View(), woken) == P.Reset(old(View()))
    {
      messagesWaiting, writeTo := 0, 0;
      readFrom := (length - 1) * itemSize;
      lastRead := length - 1;
      rxLock, txLock := P.UNLOCKED, P.UNLOCKED;
      woken := WakeSender();
    }
  }

  // Overwriting twice leaves two messages in a queue of length 1 whose items have size 0.
  method OverfullQueue() returns (length: nat, count: nat)
    ensures length == 1 && count == 2
  {
    var q := new Queue(1, 0);
    q.CopyDataToQueue([], Overwrite);
    q.CopyDataToQueue([], Overwrite);
    length, count := q.length, q.messagesWaiting;
  }
}
