# Verification of the actor server's core

A Dafny model of the parts of the server where a mistake would be hardest to see: the hierarchical timer wheel and the
timer table on top of it, the serializer for Lua values with the byte buffer and cursor below it, the mailbox protocol
and the life of a worker, the allocation of service ids, dead-letter replies, the reader/writer spin lock and the
logger's drain protocol. `dafny verify dfyconfig.toml` checks everything.

## How it is built

| files | what they hold |
|---|---|
| `Options`, `Sets`, `Counting`, `Bits`, `Packing` | small helpers; bit operators on numbers, and the proof that the arithmetic used for keys, flags, tags and ids is the bit manipulation of the code |
| `Wheels`, `WheelTable`, `WheelTick` | slot search, wheels as a table of (id, due tick) pairs, the cascade, and one tick |
| `FlatTimer`, `Refinement`, `FiringOrder` | the flat timer that the wheels stand in for, its timing theorems, and the refinement of every step; the order in which timers due on the same tick are called |
| `TimerBook`, `Ledgers`, `Requests`, `DrainQueue` | one timer's flags, calls and due ticks; the table with every timer ever created and every call made; what handlers ask for and its effect; the list a tick drains |
| `TimerIds`, `WorkerTimer` | the search for a timer id; the class `WorkerTimer` with its loops, and runs that never end |
| `Buffers` | classes `Buffer` and `View` over an array |
| `Codec`, `RoundTrip`, `Iteration`, `Shortest`, `Grammar`, `Serializer` | the format as functions, its round trips, independence of iteration order, the choice of the shortest form, the language that reading accepts, and the methods that write to a `Buffer` and read from a `View` |
| `Mailbox`, `LogDrain`, `RwLock` | concurrent protocols as interleaved atomic steps with ghost histories |
| `ServiceIds`, `Services` | id allocation; class `Worker` with its tasks and its task loop |
| `Letters` | the router's messages and the replies to dead letters |

The objects whose methods change fields in the code are classes here (`WorkerTimer`, `Buffer`, `View`, `Worker`); their
methods are proved against functions on values, and the theorems are about those functions and about histories. The
timer keeps, as ghost state, the history of everything that was armed and taken from the wheels, every timer ever created,
and every handler call with its tick. The class invariant says that the wheels refine the flat timer which the history
describes, that the keys of every slot stand in the order that follows from when and on which wheel they were put there,
that a pending key is due when its timer's next call is, that a timer's period is the time it was asked for in whole
ticks, that a timer which is gone had exactly the calls in the log between its creation and its end, and that every call
in the log was for a timer in the map. So `CallsOfLive`
and `CallsOfEnded` say for every run which calls a timer has received and on which ticks. What a handler asks for is
carried out: `Notify` gives the exact effect of one call, and `Obeyed` follows it through every round, tick and update.
Protocols with several threads are transition systems: a run is a sequence of states in which any
thread may take the next step.

## Where the code does less than one may expect

- A delay that carries out of the top wheel is dropped without a word (`Wheels.SpotExact` says when, `FlatTimer.LostExample`
  gives a run).
- A timer that is armed inside a tick on which wheel 0 wraps sees a stale head of wheel 1: a delay of 256 ticks or more
  then comes due 255 ticks early, and one of exactly 255 ticks joins the list that is being drained
  (`FlatTimer.DelayAsAsked` and `TimerBook.EvenTicks` give the exact conditions, `FlatTimer.EarlyExample` a run).
- The drain loop of such a tick need not end. It never does if an endless timer with a period of 255 ticks is drained that
  the handler does not remove, or if the handler asks for a new timer of 255 ticks at every fire call
  (`DrainQueue.NeverEnds`; `WorkerTimers.DivergingRun` reaches both from an empty timer). For a handler that neither asks
  for that period nor removes what is drained, the loop ends if and only if no endless timer with that period is on the
  list, and within as many rounds as the listed timers have calls left (`Expired`). The methods around the loop therefore
  take a number of rounds and say whether it was enough.
- Timers due on the same tick are not called in the order in which they were armed. Each move to the wheel below turns
  their order round, so of two the one armed first is called first exactly if the other was put on an even wheel
  (`WorkerTimer.NextInOrder`); two timers of three seconds created one after the other are called last first
  (`FiringOrder.LastComesFirst`).
- The comment at common/timer.hpp:174 calls the highest slot byte unused; the code stores the slot of wheel 3 there, and
  so does the model.
- A search for a service id during which the 32-bit counter wraps draws one id twice and never draws another
  (`ServiceIds.SearchSucceeds` gives the exact condition, `ServiceIds.WrapMissesFreeId` an instance).
- A line is written if and only if it was pushed before the writer's look that found the queue empty
  (`LogDrain.WrittenIff`): one logged after `wait` has begun may be lost (`LogDrain.LateLineLost`), and a second `wait`
  may return before the lines are written (`LogDrain.SecondWaitEarly`).

## Model

| member | source | states |
|---|---|---|
| Packing.MakeKeyIsOr | common/timer.hpp:175-178 | the id shifted by 32 and or-ed with the slots is the key the model computes with |
| Packing.AppendIsOr | common/timer.hpp:204 | or-ing a slot into the next free byte is adding it there |
| Packing.GetSlotIsMask | common/timer.hpp:180-183 | shifting and masking a key yields the byte of each of the four wheels |
| Packing.FlagsAreBits | common/timer.hpp:242-289 | flag tests, flag setting and the masked counter are the bit operations on `times_` |
| Packing.TagBits | magic/lua_serialize.cpp:34 | type and cookie combine into one byte and come apart again |
| Packing.ServiceIdBits | core/worker.cpp:111-118 | or-ing in the shifted worker id, and shifting and masking it out again, are the arithmetic of the model |
| Wheels.KeyFields | common/timer.hpp:174-183 | the id and all four slots survive packing into one key |
| Wheels.SpotExact | common/timer.hpp:193-212 | the slot search places a key exactly if delay plus heads fit the top wheel; the digits then stand for exactly the delay asked for, and none lies behind its head |
| WheelTable.Insert | common/timer.hpp:196-213 | insertion moves no head and keeps the array bounds |
| WheelTable.InsertTable | common/timer.hpp:185-213 | an insertion adds exactly one (id, due tick) pair, n ticks ahead of the heads, or nothing if it is lost |
| WheelTable.InsertOk | common/timer.hpp:185-213 | an insertion keeps byte L of a wheel-L key equal to its slot, and no key behind its head |
| WheelTable.CascadeStepOk | common/timer.hpp:138-151 | one step of the cascade keeps that order |
| WheelTable.CascadeStepTable | common/timer.hpp:143-151 | one step of the cascade moves keys between wheels without changing any pair |
| WheelTable.CascadeTable | common/timer.hpp:129-152 | the whole cascade conserves every (id, due tick) pair, however many wheels wrap together |
| WheelTable.CascadeReading | common/timer.hpp:129-152 | after the cascade the heads read what the number of ticks demands |
| WheelTick.PopTable | common/timer.hpp:122-123 | starting a tick changes no pair: the keys of the front slot are those due on the new tick |
| WheelTick.TakeFront | common/timer.hpp:217-221 | taking a key from the drained list removes one pair that is due now |
| WheelTick.DrainInsert | common/timer.hpp:122-151 | re-arming inside a tick adds one pair with the delay of `DrainDelay`, and lengthens the drained list exactly for 255 ticks on a wrapping tick |
| WheelTick.NothingDue | common/timer.hpp:124-127 | with the drained list empty nothing that is due is left in any wheel |
| FlatTimer.NeverOverdue | common/timer.hpp:114-153 | in every legal run no timer is pending past its due tick |
| FlatTimer.FiresOnTime | common/timer.hpp:114-153 | in every legal run an accepted timer fires on exactly its due tick, or is still pending before it: never early, late or lost |
| FlatTimer.DelayAsAsked | common/timer.hpp:122-151 | the delay given is the delay asked for if and only if it fits the wheels and is not one of 255 ticks or more asked for inside a wrapping tick |
| FlatTimer.EarlyExample | common/timer.hpp:122-151 | a run in which a handler called on tick 255 asks for 300 ticks and is given 45 |
| FlatTimer.LostExample | common/timer.hpp:198-212 | a run in which a timer is accepted and forgotten |
| Refinement.ArmRefines | common/timer.hpp:185-213 | inserting a key into the wheels is arming a timer of the flat table, between ticks and inside one |
| Refinement.BeginRefines | common/timer.hpp:122-123 | popping wheel 0 begins a tick of the flat timer |
| Refinement.FireRefines | common/timer.hpp:217-223 | whatever key is drained belongs to a timer that is due on this tick |
| Refinement.EndRefines | common/timer.hpp:129-152 | when the list is empty nothing is due any more, and the cascade is invisible in the flat table |
| FiringOrder.ArmInLine | common/timer.hpp:208 | whoever is armed last is last in its slot, between ticks and inside one |
| FiringOrder.SpillLines | common/timer.hpp:143-150 | keys that move to the wheel below stand there in the opposite order, before those already there |
| FiringOrder.EndInLine | common/timer.hpp:129-152 | the whole cascade keeps the order that arming order and wheel parity demand, however many wheels wrap together |
| FiringOrder.LastComesFirst | common/timer.hpp:143-150 | two timers of 300 ticks created first of all are called in the opposite order |
| TimerBook.SlotCount | common/timer.hpp:187-194 | the number of ticks is the duration divided by ten, rounded up, and at least one |
| TimerBook.FlagsApart | common/timer.hpp:265-284 | setting a flag leaves the counter alone and counting down leaves the flags alone |
| TimerBook.EvenTicks | common/timer.hpp:215-229 | the k-th call comes k + 1 whole periods after the creation if and only if no arming before it is planned for a wrapping tick with a period of 255 ticks or more; otherwise earlier |
| Ledgers.NotDue | core/worker_timer.hpp:43-55 | an id that is free in the map has no key left in the wheels |
| Ledgers.BookRepeat | core/worker_timer.hpp:24-57 | a new timer under a free id keeps map, wheels, records and log in agreement |
| Ledgers.BookRemove | core/worker_timer.hpp:59-67 | flagging a timer settles the number of fire calls it is stopped at and keeps the agreement |
| Ledgers.BookFire | core/worker_timer.hpp:89-95 | the id of a drained key is always in the map, so the missing-id branch is never taken, and its timer's next call is due on this very tick |
| Ledgers.BookRearm | common/timer.hpp:223-227 | arming a timer again on the tick of its call makes its key due when its next call is |
| Ledgers.BookEnd | core/worker_timer.hpp:106-108 | a timer that leaves the map has exactly the calls in the log between its creation and now |
| TimerBook.AfterFire | core/worker_timer.hpp:98-105 | after a fire call and its decrement the counter agrees with the number of fire calls received, also if the handler removed the timer |
| TimerBook.FireOutcome | core/worker_timer.hpp:98-106 | what a fire call leaves behind, whatever the handler did meanwhile: armed again, or finished after exactly its quota of calls |
| TimerBook.GoneInOrder | core/worker_timer.hpp:106-107 | the calls of a timer after its remove call: fire calls on their due ticks, as many as its quota or as before its removal, and one remove call |
| Requests.DoAllMakes | core/worker_timer.hpp:24-57 | the timers a handler asks for in one call are created, one per request, in order, with the milliseconds, the times and the service asked for, on this tick |
| Requests.ObeyedCall | core/worker_timer.hpp:100-106 | after a call every request is a new timer and every removed timer is stopped at no more fire calls than it had had |
| Requests.ObeyedTransitive | common/timer.hpp:215-229 | so it is after any stretch of calls |
| Requests.NoFireAfter | core/worker_timer.hpp:59-67 | after the call in which it was removed, also by a handler, a timer gets no fire call |
| DrainQueue.DidNext | core/worker_timer.hpp:24-67 | one more action of a handler: a removal flags its timer, a request of 255 ticks on a wrapping tick joins the list, and all else stays |
| DrainQueue.QueueIsDue | common/timer.hpp:122-127 | the list being drained holds the keys of exactly the timers that are due now |
| DrainQueue.RoundCounts | common/timer.hpp:217-228 | each round of a calm tick lowers the number of calls still to make |
| DrainQueue.RoundSticks | common/timer.hpp:217-228 | an endless timer of 255 ticks that is never removed is still on the list after a round of a wrapping tick |
| DrainQueue.RoundChases | common/timer.hpp:217-228 | so is a timer to be called, if the handler asks for another one of 255 ticks at every fire call |
| DrainQueue.EndsIff | common/timer.hpp:215-229 | for a handler that neither asks for 255 ticks nor removes what is drained, the loop never ends exactly if an endless timer of 255 ticks is on the list |
| TimerIds.NoneFree | core/worker_timer.hpp:43-46 | a whole turn without a free id means that all 2^32 ids are live, and then the search never meets a free one |
| TimerIds.OneFree | core/worker_timer.hpp:43-46 | a free id means that fewer than 2^32 are live |
| WorkerTimers.WorkerTimer.CreateTimerId | core/worker_timer.hpp:75-87 | the first free id from `uuid_` on, cyclically, with the reset at 0 and 2^24 - 1; without success exactly if all 2^32 ids are live, where the search of the code goes on for ever |
| WorkerTimers.WorkerTimer.Repeat | core/worker_timer.hpp:24-57 | under a fresh id a timer of the milliseconds asked for, at least ten, armed for that many in ticks, rounded up; nothing happens without a handler |
| WorkerTimers.WorkerTimer.Remove | core/worker_timer.hpp:59-67 | the flag of the named timer is set, at the number of fire calls it has had, and nothing else changes |
| WorkerTimers.WorkerTimer.RunActions | core/worker_timer.hpp:24-67 | the exact ledger after any list of handler actions, for the ids they were given |
| WorkerTimers.WorkerTimer.Notify | core/worker_timer.hpp:100-106 | one call of the handler, and the exact ledger after everything it asked for |
| WorkerTimers.WorkerTimer.PlaceKey | common/timer.hpp:195-213 | the loop over the wheels is the specified insertion |
| WorkerTimers.WorkerTimer.InsertTimer | common/timer.hpp:185-213 | the timer is armed for its duration in ticks and the refinement is kept |
| WorkerTimers.WorkerTimer.Erase | core/worker_timer.hpp:106-107 | exactly one remove call, after which the timer is out of the map and its calls end with the log |
| WorkerTimers.WorkerTimer.CountDown | core/worker_timer.hpp:101-104 | an endless timer keeps its record; a counted one loses one and goes on while its counter is positive |
| WorkerTimers.WorkerTimer.Fire | core/worker_timer.hpp:98-105 | one fire call on the tick it is due on, whose requests and removals are carried out; the timer is to be armed again with one call less to make, or has had its quota |
| WorkerTimers.WorkerTimer.OnTimer | core/worker_timer.hpp:89-109 | exactly which calls the handler receives for a drained key, and that their requests and removals are carried out; the timer that ends is the one that was created under this id, with its quota and its removal unchanged |
| WorkerTimers.WorkerTimer.ExpireOne | common/timer.hpp:217-228 | one round makes the calls of the first timer on the list, carries out what they ask for, and arms the timer again if it is to go on, all others keeping their places; calm lists come nearer to their end, and lists that never end stay so |
| WorkerTimers.WorkerTimer.Expired | common/timer.hpp:215-229 | the loop never ends on the two kinds of lists of `NeverEnds`; it ends within the calls the listed timers have left if the handler never asks for 255 ticks and no endless timer of 255 ticks is listed; an if and only if for handlers that do not interfere |
| WorkerTimers.WorkerTimer.SpillFront | common/timer.hpp:143-150 | the inner loop empties the front slot of the next wheel into this one, front first |
| WorkerTimers.WorkerTimer.CascadeWheels | common/timer.hpp:129-152 | the nested loops are the specified cascade |
| WorkerTimers.WorkerTimer.Tick | common/timer.hpp:116-152 | one tick in the order of the code keeps the invariant, forgets no call and no timer, and carries out what the handler asks for; it ends or does not as its list says, and changes nothing but the clock if nothing is due |
| WorkerTimers.WorkerTimer.Update | common/timer.hpp:101-155 | each millisecond of a clock that does not go back is in a tick advanced, a tick dropped while stopped, or `tick_`, which ends in [0, 10); the timers created are exactly those the handler asked for, and those it removed are stopped |
| WorkerTimers.WorkerTimer.OneKeyEach | core/worker_timer.hpp:24-57 | between ticks of every run in which no insertion was lost, each id in the map has exactly one key in all wheels and every key's id is in the map |
| WorkerTimers.WorkerTimer.NextIsDue | common/timer.hpp:122-123 | between ticks the front slot of wheel 0 holds the keys of exactly the timers due on the next tick |
| WorkerTimers.WorkerTimer.NextInOrder | common/timer.hpp:143-150 | of two timers that the next tick drains, one is called before the other exactly if it was armed first and the other was put on an even wheel, or it was armed last and was put on an odd one |
| WorkerTimers.WorkerTimer.EachCreationOnce | core/worker_timer.hpp:24-57 | every timer ever created is in the map exactly as long as it has not ended, has ended before its id is used again, and has the milliseconds it was asked for, in ticks and rounded up, as its period; every handler call was for a timer in the map and names its service |
| WorkerTimers.WorkerTimer.CallsOfEnded | core/worker_timer.hpp:89-109 | for every timer ever created that is gone: the calls in the log from its creation to its end are its quota of fire calls, or those before its removal, each on its due tick, and then one remove call; an endless one is gone only if removed |
| WorkerTimers.WorkerTimer.CallsOfLive | core/worker_timer.hpp:89-109 | between ticks a timer in the map has received exactly the fire calls that are due by now, each on its tick, fewer than its quota and none since its removal |
| WorkerTimers.DivergingRun | common/timer.hpp:215-229 | an update, reached from an empty timer, that does not return however many rounds its loop is given: with an endless timer of 2550 ms, or a handler that replaces each called timer by another of 2550 ms |
| WorkerTimers.RelayIsRestless | common/timer.hpp:215-229 | there is such a handler, and every timer it asks for is a counted one |
| Buffers.NextPow2 | common/buffer.hpp:486-498 | the smallest power of two that is at least x, for 0 < x <= 2^32 |
| Buffers.Buffer.CheckSpace | common/buffer.hpp:443-477 | room for the bytes asked for, no readable byte changed, growth, to a power of two, exactly if neither the end nor the whole array without its head has the room, and compaction otherwise |
| Buffers.Buffer.Grow | common/buffer.hpp:452-465 | the bytes move to a new array of the required size |
| Buffers.Buffer.Compact | common/buffer.hpp:469-475 | the readable bytes move to the reserved head unchanged, although the ranges may overlap |
| Buffers.Buffer.WriteBack | common/buffer.hpp:287-299 | the readable bytes grow by the bytes written, in a new array exactly if there is no room |
| Buffers.Buffer.WriteFront | common/buffer.hpp:302-319 | the bytes are put in front if they fit before the read position, and otherwise nothing changes |
| Buffers.Buffer.Read | common/buffer.hpp:322-339 | the first bytes are taken off, or nothing changes if there are too few |
| Buffers.Buffer.Seek | common/buffer.hpp:341-366 | moving from the current position drops that many readable bytes; a position before 0 or beyond the end stops at the end |
| Buffers.Buffer.Clear | common/buffer.hpp:368-372 | no readable bytes, and the head is reserved again |
| Buffers.View.Read | common/buffer_view.hpp:28-47 | the first remaining bytes, or failure without any change; never past the end |
| Buffers.View.Skip | common/buffer_view.hpp:116-126 | the remaining bytes lose a prefix; the reset to 0/0 means that nothing remains |
| RoundTrip.IntegerRoundTrip | magic/lua_serialize.cpp:51-87 | every 64-bit integer comes back from the form chosen for it, whatever follows |
| RoundTrip.StringRoundTrip | magic/lua_serialize.cpp:101-125 | every string shorter than 2^31 comes back from its short or long form |
| RoundTrip.HeaderRoundTrip | magic/lua_serialize.cpp:129-139 | every array length below 2^31 comes back from the cookie or the integer after it |
| Shortest.IntegerShortest | magic/lua_serialize.cpp:51-87 | no form that reads as this integer is shorter than the one written, and no other is as short |
| Shortest.HeaderShortest | magic/lua_serialize.cpp:129-139 | the same for the length of an array, also by way of a number that wraps to it |
| Shortest.StringShortest | magic/lua_serialize.cpp:101-125 | the same for strings |
| Shortest.LeafShortest | magic/lua_serialize.cpp:38-125 | of all bytes that read as a given leaf, those written are the shortest with the least tag |
| Shortest.EachEntryOnce | magic/lua_serialize.cpp:129-168 | a packed table is as long as its header, a byte for each empty slot, the value of each entry in a slot, key and value of every other entry, and the closing nil |
| RoundTrip.ValueRoundTrip | magic/lua_serialize.cpp:207-252 | what was packed for a value, followed by anything, unpacks to that value and leaves the rest |
| RoundTrip.TableAssembled | magic/lua_serialize.cpp:319-346 | array part and hash part together store each entry exactly once, whatever length the runtime reports |
| Iteration.OrderIrrelevant | magic/lua_serialize.cpp:151-168 | two presentations of a value that differ in iteration order and reported array lengths, at any depth, have the same value |
| Iteration.SameIff | magic/lua_serialize.cpp:129-168 | and presentations have the same value only if that is all in which they differ |
| Iteration.PermutedIsSame | magic/lua_serialize.cpp:129-168 | a permutation of the entries is such a difference |
| RoundTrip.PackSucceeds | magic/lua_serialize.cpp:207-252 | packing succeeds if and only if every visited value is of a supported type and inside at most 32 tables |
| RoundTrip.DepthLimit | magic/lua_serialize.cpp:207-212 | 32 tables inside one another are packed and 33 are refused |
| RoundTrip.PackUnpack | magic/lua_serialize.cpp:407-423 | unpacking what was packed for a list of values yields the list |
| RoundTrip.ListRoundTrip | magic/lua_serialize.cpp:490-518 | the encoding delimits itself: what follows a packed list is read as if it stood alone |
| RoundTrip.PrefixFree | magic/lua_serialize.cpp:207-252 | no packed value is a proper prefix of another, and equal bytes mean equal values |
| Codec.Unpack | magic/lua_serialize.cpp:400-405 | on arbitrary bytes decoding ends in failure or in a value with fewer bytes left |
| Grammar.SentenceRead | magic/lua_serialize.cpp:261-405 | every sentence of the grammar of all encodings, also those never written, is read as its meaning, whatever follows |
| Grammar.SentenceParsed | magic/lua_serialize.cpp:261-405 | and whatever is read is a sentence with that meaning |
| Grammar.ReadsExactly | magic/lua_serialize.cpp:261-405 | so on arbitrary bytes reading yields a value and a rest if and only if they are a sentence with that meaning and the rest |
| Serializer.WriteInteger | magic/lua_serialize.cpp:51-87 | the branches append the specified bytes |
| Serializer.WriteString | magic/lua_serialize.cpp:101-125 | the branches append the specified bytes |
| Serializer.WriteHeader | magic/lua_serialize.cpp:129-139 | the header of a table is appended |
| Serializer.PackArrayPart | magic/lua_serialize.cpp:141-149 | the loop appends the array part and fails exactly if a slot cannot be packed |
| Serializer.PackHashPart | magic/lua_serialize.cpp:151-168 | the loop appends the entries not in the array part and the closing nil |
| Serializer.PackTable | magic/lua_serialize.cpp:192-205 | header, array part and hash part in this order |
| Serializer.PackOne | magic/lua_serialize.cpp:207-252 | the packed value is appended to the buffer, or packing fails exactly when specified |
| Serializer.PackValues | magic/lua_serialize.cpp:407-423 | a buffer holding all values, none for no values, and failure exactly if a value is refused |
| Serializer.ReadInteger | magic/lua_serialize.cpp:261-293 | the cursor yields the specified integer and moves past it |
| Serializer.ReadBuffer | magic/lua_serialize.cpp:309-315 | a string of the given length, or failure if fewer bytes remain |
| Serializer.ReadLongString | magic/lua_serialize.cpp:371-388 | the length field and the string after it |
| Serializer.ReadArrayLength | magic/lua_serialize.cpp:320-329 | the cookie, or the integer that follows it |
| Serializer.UnpackTableValue | magic/lua_serialize.cpp:319-346 | both loops end and build the specified table |
| Serializer.PushOne | magic/lua_serialize.cpp:348-398 | one value for a tag and cookie |
| Serializer.UnpackOne | magic/lua_serialize.cpp:400-405 | one value from the cursor, or failure, for arbitrary bytes |
| Serializer.UnpackValues | magic/lua_serialize.cpp:490-518 | all values up to the end of the bytes, or failure |
| Serializer.UnpackFront | magic/lua_serialize.cpp:463-488 | one value, and the buffer advanced by exactly the bytes it took |
| Serializer.UnpackEach | magic/lua_serialize.cpp:463-488 | repeated single unpacking yields the list that unpacking everything yields |
| Mailbox.OneWakeup | core/worker.cpp:223-241 | in every interleaving messages wait exactly while one wake-up is under way, never two; a drain task never finds the queue empty |
| Mailbox.ExactlyOnceInOrder | core/worker.cpp:230-240 | handled, swapped-out and waiting messages together are the pushed messages in push order, and tasks taken and waiting are those posted |
| Mailbox.StepKeepsInv | core/worker.cpp:223-254 | every step of any thread keeps the count of wake-ups and the order of messages |
| Mailbox.WorkBounds | core/worker.cpp:43-62 | without new requests every run takes a bounded number of steps |
| Mailbox.StopsWhenAllHandled | core/worker.cpp:43-62 | a run that can go no further has taken every task and handled every message, unless a task made the worker exit |
| LogDrain.WrittenIff | common/logger.hpp:191 | when the writer is done a line has been written, at its place in the push order, if and only if it was pushed before the look that found the queue empty |
| LogDrain.WrittenInOrder | common/logger.hpp:183-234 | lines are written once and in push order; when the `wait` that stopped the writer returns every line pushed before it began is written |
| LogDrain.SecondWaitEarly | common/logger.hpp:134-137 | a run in which a second `wait` returns while a line pushed before it is unwritten |
| LogDrain.SecondWaitIff | common/logger.hpp:134-137 | a second `wait` leaves everything pushed before it written if and only if the queue and the writer's swapped-out lines are empty |
| LogDrain.LateLineLost | common/logger.hpp:191 | a run in which a line pushed after `wait` began is never written |
| LogDrain.WorkBounds | common/logger.hpp:132-145 | without further pushes the writer and the waiter take a bounded number of steps |
| LogDrain.RestsWhenAllWritten | common/concurrent_queue.hpp:133-161 | a ready logger that nobody stops rests only when every pushed line is written: a pushed line wakes the writer |
| LogDrain.NeverLeftBlocked | common/concurrent_queue.hpp:133-161 | once the exit flag is set the writer can always step until it is done; until joined, something can |
| RwLock.Exclusion | common/rwlock.hpp:16-72 | in every interleaving a writer excludes readers and other writers, and `read_` is the number of threads that incremented it and did not yet decrement it |
| RwLock.WriterAdmitted | common/rwlock.hpp:41-62 | over any stretch of a run in which a writer waits for readers, the others take at most three steps each that are neither spins nor new calls; when these are used up its next step takes it in |
| RwLock.ReaderAdmitted | common/rwlock.hpp:16-39 | on any stretch without an owner of `write_` a thread inside `lock_shared` holds the lock with its fourth step at the latest |
| RwLock.WriterEnters | common/rwlock.hpp:41-62 | a writer that finds no owner is the owner after one step, and with no reader counted it is in its section after the next |
| RwLock.Available | common/rwlock.hpp:16-62 | from every reachable state with all threads idle any thread can take the lock either way |
| RwLock.NoDeadlock | common/rwlock.hpp:16-72 | unless all threads are idle some thread inside the lock's code can change the state |
| ServiceIds.IdMapsBack | core/router.cpp:187-190 | a drawn id is not 0, fits 32 bits, belongs to one worker only, and the router finds that worker |
| ServiceIds.DrawReaches | core/worker.cpp:131-142 | every id but the missed one is among the next 65535 draws |
| ServiceIds.DrawMisses | core/worker.cpp:111-118 | the missed id is not |
| ServiceIds.Pigeonhole | core/worker.cpp:135-142 | a worker has at most 65535 live ids, and as many only when none is free |
| ServiceIds.SearchSucceeds | core/worker.cpp:131-142 | the search finds an id if and only if the live ids and the missed one do not take all; always if two are free, or one and the counter does not wrap |
| ServiceIds.WrapMissesFreeId | core/worker.cpp:131-142 | a full round that fails although an id is free |
| Services.Worker.NextId | core/worker.cpp:111-118 | the next id, with the counter wrapping at 32 bits |
| Services.Worker.FindId | core/worker.cpp:131-142 | the search stops at the first free id, or after 65535 draws with the last one |
| Services.AddReplies | core/worker.cpp:123-189 | the creator is told the first free id from the counter on, which is now live, exactly if the worker was ready, the service could be made and initialised, and a draw was free |
| Services.AddChanges | core/worker.cpp:123-189 | after an addition the new service is there under the id that was told, and all others as before; after a failure nothing has changed |
| Services.NotDrawnSoon | core/worker.cpp:111-118 | an id that was given out is not among the next 65534 drawn, unless the counter wraps |
| Services.Worker.AddService | core/worker.cpp:120-190 | the services, the count and the reply in every case, including the fall through after an exhausted search |
| Services.Worker.RemoveService | core/worker.cpp:192-221 | the service is gone and counted off, and a stopping worker without services exits |
| Services.Worker.StopWorker | core/worker.cpp:74-96 | exited at once without services, stopping with some, and no change the second time |
| Services.Worker.Run | core/worker.cpp:39-65 | the thread runs the tasks in order and takes none after it has exited |
| Services.TaskKeepsInv | core/worker.cpp:74-221 | every task keeps the count, the ids and the meaning of the states |
| Services.OnlyForward | core/worker.cpp:74-221 | over every run the state only moves init, ready, stopping, exited, and after ready no service is added |
| Services.ServiceStays | core/worker.cpp:123-221 | over every run a service stays the same until a task removes it |
| Services.ServiceFrom | core/worker.cpp:123-221 | over every run a service that is new, or is there after a removal of its id, was made and initialised by a task since, under a free id in a ready worker |
| Services.ExitingTask | core/worker.cpp:84-88 | the worker exits in exactly two tasks: a stop without services, or the removal of the last service while stopping |
| Services.Between | core/worker.cpp:120-221 | between tasks the count is the number of services, ids lead back to the worker, exited means none and stopping at least one |
| Letters.DeadLetterAnswered | core/worker.cpp:323-335 | a request to a dead service is answered if and only if it has a session and a valid sender, with the caller's own session; the answer is never answered |
| Letters.ReachesWorker | core/router.cpp:46-83 | a request is posted if and only if it has a type and the receiver's worker exists, with the negated session; a response also needs a session |
| Letters.RequestPosted | core/router.cpp:70-96 | in every run such a request and every broadcast is on record from then on |
| Letters.EventKeepsInv | core/router.cpp:46-83 | every event keeps each dead letter's answer unique and correctly addressed |
| Letters.OneAnswer | core/router.cpp:164-185 | in every run each dead letter has at most one answer, no answer belongs to two letters, and none is a reply to a reply |
| Letters.CallerIsTold | core/worker.cpp:323-335 | in every run a request that a dead service's worker handles has from then on exactly one answer with the caller's session |
| Letters.Fate | core/worker.cpp:308-337 | in every run each letter is in flight or was handled once: handed to its receiver and to no other and never answered if that lived, else handed to nobody and answered if and only if it has a session and a valid sender |

## Left out

- WorkerTimers.WorkerTimer.Expired: bounded by a number of rounds, because the loop of the code may run for ever. For
  handlers that do ask for 255 ticks inside a wrapping tick the contract counts those requests after the fact, as only
  the handler knows how many it will make. `Tick`, `RunTicks` and `Update` inherit this.
- WorkerTimers.WorkerTimer.CreateTimerId: cut off after a whole turn, where with all ids live the search of the code goes
  on for ever. Methods that run handlers report that case with `ok` false.
- TimerBook.SlotCount: durations for which adding 10 overflows 32 bits are excluded by the type of durations.
- Buffers.NextPow2: nothing but x <= result is promised beyond 2^32, where the code smears too few bits.
- Codec.Unpack: streams of 2^31 bytes or more, whose size the code narrows to int. A string length with the top bit set
  becomes a negative int and then a size_t near 2^64, which Lua refuses to allocate; that error is a failure here, as all
  errors are. Memory limits of `lua_createtable` are not modelled.
- RoundTrip.PackUnpack: strings and array lengths are below 2^31, as the code narrows them to int.
- LogDrain.WrittenInOrder: speaks of the `wait` that stops the writer; for one that returns at once see `SecondWaitIff`.
  Two threads that both pass the first test of `wait` would join the same thread, which C++ leaves undefined; the model
  lets only one pass it.
- Mailbox.StopsWhenAllHandled: what the tasks other than draining do, except that one of them may end the loop.
- RwLock.Exclusion: sequentially consistent steps instead of acquire and release, and `read_` does not wrap.
- Letters.DeadLetterAnswered: negating the least 32-bit session wraps; the code leaves that case to the compiler.
- Letters.Fate: a broadcast is one letter here, not one for each worker, and to whom it is handed is not modelled.
- Iterators: a handler that adds timers may rehash the map, which invalidates the iterator that `on_timer` passes to
  `erase` after the remove call (core/worker_timer.hpp:106-107); records are looked up by id here.
- Unlocked reads: the task loop looks at `queue_.empty()` without its lock; this is one atomic step here.
- Lua itself: the stack, `luaL_error` (a failure here), the `__pairs` metamethod, NaN keys, the normalisation of float
  keys, and freeing the buffer on errors. Reals and pointers are opaque eight-byte strings, in little-endian order.
- `concat` and `concats`: text output without an inverse.
- Buffer: `seek` from the beginning or the end, `offset_writepos`, `init` on a used buffer, moving, iterators, the split
  between stack and heap array, and the overflow of `size_t`. The overlapping `memcpy` is a forward copy.
- Buffer view: the typed, string, vector and line reads, which the serializer does not use.
- Worker: `shared`, `count_` as read by other threads, the CPU time, `start` and the timer callbacks; services are
  opaque values, and what making and initialising one answers is a parameter.
- Router: `next_worker`, `broadcast` beyond its message, unique services, environment, redirected or resent messages.
- `core/timer.hpp` and class `timer` of `common/timer.hpp`: near duplicates of `core/worker_timer.hpp`.
- Logger: formatting, levels, files and the console.
- Configuration, directories, sockets, the Lua services, `main` and everything else that is input or output.
