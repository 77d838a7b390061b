# ParallelIO: a verified model of the C library's data paths

ParallelIO moves arrays that are distributed over many compute tasks to and from netCDF files through a
smaller number of IO tasks. This project models the three parts of its C library in which most of the
reasoning sits, and proves what they promise:

* **Distributed sample sort and duplicate check** (`Partition`, `Exchange`, `Blocks`, `SampleSort`,
  `UniqueCheck`). Data spread over ranks is partitioned in place by common pivots, exchanged and sorted.
  Whatever the samples, the outputs read in rank order are the one sorted arrangement of all inputs, and
  comparing neighbours on each rank decides global uniqueness because equal values meet on one rank.
* **Distributed-array write and read path.** Top down:
  * `MultiBuffer`, `WriteBehind`: the write-behind buffer of the compute tasks. Over every run of writes,
    forced flushes, syncs and a close it only delays writes; all tasks flush at the same points; no hand-over
    exceeds what an IO task can take. Which arrays may share a buffer is settled exactly.
  * `Hyperslabs`, `Decomposition`, `StartCount`: boxes of N-dimensional indices, the file as a map, and the
    puts that a task's regions call for.
  * `ParallelWriter`, `PnetcdfWriter`, `SerialWriter`: the three writers.
  * `Interleaving`, `WriterAgreement`: interleavings of the tasks' calls, and the proof that the writers leave the same
    file.
  * `FileContents`: what the file holds after a write, element by element.
  * `Reader`, `SerialReader`, `RoundTrip`: the readers, and write-then-read restoring every task's buffer, for the
    serial, the netCDF-4 and the PnetCDF path from end to end. Of entries of a batch that repeat a record of a variable,
    the latest one stays.
  * `Contiguity`, `BlockList`, `Coalescing`: the "vard" code that turns subarrays into byte blocks.
  * `PnetcdfBuffers`, `BoxFill`: the life and the size of the buffers that non-blocking requests refer to, and the
    fill values that are put into one of them first.
  * `SortedCopy`: sorting data for a write and putting it back after a read.
* **Asynchronous IO server** (`MsgServer`, `Marshal`). The rank-0 loop that serves many components, and the
  packet streams by which calls travel to the IO tasks.

## How the model is built

Each file of the C library keeps its own form. Loops that update variables are methods with loops, an array
that is changed in place is an `array`, and a file, an IO task or an open file whose fields are updated is a
class. Every such method is proved against a specification function or relation, and what the code promises is
proved about that.

* MPI collectives are functions of the states of all ranks; point-to-point messages are sequences in sending order.
* A file is a map from (variable, index) to value. An index never written reads as the fill value.
* One element type stands for all netCDF types.
* Sizes are mathematical integers.
* Region lists are taken as the rearranger delivers them: in buffer order with `loffset` the running total of
  sizes, `llen` their total, and pairwise disjoint.

Where the code itself forces a precondition, or a property holds only in part, this is stated as a theorem:

* `WriterAgreement.AgreementExact`: the serial writer adds the record to `start[0]` once more for every variable, so
  it agrees with the parallel ones exactly when the decomposition leaves out a record dimension, the record is not
  positive, there is one variable, or nothing is stored.
* `PnetcdfWriter.RequestsExact`: the PnetCDF writer sets the record in its list only for a variable whose own record has
  been set, where the other writers look at the first variable only. A variable without a record is put into the record
  set last, so the requests are right exactly when this is the variable's own record in the call
  (`PnetcdfWriter.RecordNotSet` is a pair of variables for which it is not).
* `Coalescing.CoalescingExact`: the end of the latest request is kept as bytes plus a number of elements and survives
  a request that is not contiguous. The block list is right exactly when no contiguous request starts where an
  earlier one ended with only non-contiguous ones between them. That can happen for one-byte elements only.
* `WriteBehind.StrideExact`: excess elements of an array are documented as ignored. But the multi-buffer strides by the
  length of the latest array and the rearranger by the length of the decomposition (`src/clib/pio_rearrange.c:943`), so
  an array is found together with the earlier ones exactly when it is the first or has no excess elements.
* `WriteBehind.FrameExact`: the multi-buffer's list of records grows for a variable with a record only, but is written
  whenever it is there. The store is inside the list and all records are right exactly when the buffer is empty or the
  waiting variables have records if and only if the new one has. Two record variables of one decomposition, of which
  one has its record set and the other has not, fail in one order by a store behind the list
  (`WriteBehind.RecordThenNone`) and in the other by a record that nobody has set (`WriteBehind.NoneThenRecord`).
  `WriteBehind.JoinsExact` puts both together: this is what `WriteBehind.NothingLostOrRepeated` asks of a write that no
  flush precedes, and no more. The other results about runs ask for memory safety only.
* `BoxFill.FillExact`: the box rearranger's fill values are laid out at the stride of the largest IO task, the data at
  the task's own. The holes of a task get the right values exactly when one variable is written, or the task has as
  much data as the largest, or none.
* `Coalescing.CallExact`: with a leading dimension that is not unlimited the "vard" code adds the record offset to the
  starts and once more to the displacement of contiguous requests. That goes wrong exactly for a positive record, an
  offset and a contiguous request (`Coalescing.RecordAddedTwice`).
* `Marshal.WholeDataReceived`: the documentation of `PIOc_write_darray_multi` speaks of `nvars` arrays of data, but the
  message carries one array's worth of bytes. The model follows the code: the data arrives whole exactly when there
  is one variable or no data.
* `Reader.ReadBoxExact`: the readers treat every multi-dimensional variable with a record as having a record
  dimension. They look where the writers wrote exactly for the shapes of `Reader.ReadsBack`.

The comment in `pio_msg_handler2` speaks of waiting for any one request; the code waits for some, and the model
follows the code.

`dafny verify dfyconfig.toml` checks the whole project.

## Model

| member | source | states |
|---|---|---|
| Partitioning.Partition | src/clib/parallel_sort.c:51-68 | The elements of the range below the pivot come first, up to the returned position; the range is permuted and nothing outside it moves |
| Partitioning.PartitionByPivots | src/clib/parallel_sort.c:134-137 | After the pivot loop the data is a permutation of the input and piece i holds exactly the elements of bin i, also for repeated pivots and empty pieces |
| Partitioning.BinIsUnique | src/clib/parallel_sort.c:134-137 | No value belongs to two bins, so equal keys meet in one |
| Partitioning.QsortSorts | src/clib/parallel_sort.c:169-170 | The library sort yields a sorted permutation |
| SampleSort.LocalPivots | src/clib/parallel_sort.c:115-120 | One sample for every other rank, taken from the data at the picked positions, zeros for a rank without data |
| SampleSort.ChoosePivots | src/clib/parallel_sort.c:122-129 | The pivots are every (size-1)-th of the sorted gathered samples, and are themselves sorted |
| SampleSort.PartitionAll | src/clib/parallel_sort.c:134-137 | Every rank's data is binned by the common pivots and permuted in place, without touching other ranks |
| SampleSort.BlockSizesSum | src/clib/parallel_sort.c:146-147 | The first i block sizes add up to cut i, so running totals of block sizes are positions in the partitioned data |
| Exchange.ExchangeLayout | src/clib/parallel_sort.c:151-161 | Send counts are the rank's row and receive counts its column of the gathered sizes; displacements tile both buffers without gap or overlap |
| Exchange.AlltoallvPlaces | src/clib/parallel_sort.c:166-168 | Element k of the block from rank j lands at the receive displacement for j plus k |
| SampleSort.ExchangeIsWellMatched | src/clib/parallel_sort.c:146-168 | The layouts that ranks compute on their own fit together: what j sends to r is what r expects from j, and every sent block lies inside the sender's data |
| Blocks.RedistributionConserves | src/clib/parallel_sort.c:166-168 | Reading any matrix of blocks by receiver yields the same elements as reading it by sender |
| SampleSort.RowIsData | src/clib/parallel_sort.c:146-161 | The blocks a rank sends make up its whole data, in order |
| SampleSort.ExchangeConserves | src/clib/parallel_sort.c:146-168 | The exchange neither loses nor duplicates an element |
| SampleSort.ReceivedInBin | src/clib/parallel_sort.c:134-168 | Rank r receives nothing but elements of bin r |
| SampleSort.SortedAcrossRanks | src/clib/parallel_sort.c:166-170 | Locally sorted ranks that hold increasing bins are sorted when concatenated in rank order |
| SampleSort.ExchangeAndSort | src/clib/parallel_sort.c:146-170 | From partitioned data to output: sorted across ranks, the same elements, every rank in its bin |
| SampleSort.ParallelSort | src/clib/parallel_sort.c:103-179 | For any rank count, any input and any picks, the concatenated outputs are the sequential sort of the concatenated inputs |
| UniqueCheck.RepeatsAreNeighbours | src/clib/parallel_sort.c:76-91 | In sorted data a non-zero value repeats exactly when some non-zero element equals its left neighbour |
| UniqueCheck.IsUnique | src/clib/parallel_sort.c:76-91 | Decides exactly whether no non-zero value repeats; the order assertion never fails on sorted data |
| UniqueCheck.RepeatsLocally | src/clib/parallel_sort.c:203-205 | A value repeats globally exactly when it repeats on some rank |
| UniqueCheck.AllreduceMaxPositive | src/clib/parallel_sort.c:207-213 | The reduced verdict is positive exactly when some rank's is |
| UniqueCheck.RunUniqueCheck | src/clib/parallel_sort.c:190-213 | All ranks learn whether a non-zero value occurs at two different positions anywhere in the input |
| Hyperslabs.IndicesAreBox | src/clib/pio_darray_int.c:468-470 | The row-major enumeration of start and count lists exactly the indices inside the box |
| Hyperslabs.IndicesRowMajor | src/clib/pio_darray_int.c:468-470 | The p-th index listed is the one at row-major position p of the box |
| Hyperslabs.OrderIrrelevant | src/clib/pio_darray_int.c:435-471 | Puts that do not overlap may reach the file in any order, and empty ones may be left out |
| StartCount.FindStartCount | src/clib/pio_darray_int.c:292-347 | The arrays filled in place are the region's start and count in file dimensions, with all the rules for the record dimension |
| StartCount.FileCountMeaning | src/clib/pio_darray_int.c:302-341 | These rules amount to covering exactly the region when the write stores it, and no element otherwise |
| ParallelWriter.PutRegion | src/clib/pio_darray_int.c:437-471 | One call for every variable of a region, with its own record and its own part of the buffer |
| ParallelWriter.RoundsMeaning | src/clib/pio_darray_int.c:435-471 | The calls with data are the puts the regions call for, in order |
| ParallelWriter.WriteNetcdf4p | src/clib/pio_darray_int.c:435-471 | Every task makes the same number of collective calls for the same variables in the same order, and those with data are the puts of its regions |
| PnetcdfWriter.ListedOffset | src/clib/pio_darray_int.c:475-503 | Skipped regions hold no element, so an entry of the list takes its data from its region's own offset |
| PnetcdfWriter.CollectSubarrays | src/clib/pio_darray_int.c:435-503 | The list holds the start and count of exactly the regions with data, and the count passed is its number of elements |
| PnetcdfWriter.WritePnetcdf | src/clib/pio_darray_int.c:541-669 | One request per variable; each subarray of a request carries the data of one region of that variable, at the record that was set last: its own if it has one, else that of the latest variable before it which has one |
| PnetcdfWriter.RequestExact | src/clib/pio_darray_int.c:590-592 | A request made with the record of variable k is the request for variable nv if and only if there is no record dimension, or no region has data, or the two records are equal |
| PnetcdfWriter.RequestsExact | src/clib/pio_darray_int.c:541-669 | All requests of a task are right if and only if every variable finds its own record in the list |
| PnetcdfWriter.AllSetIsRight | src/clib/pio_darray_int.c:541-669 | That is so if all variables have a record set, or none has |
| PnetcdfWriter.RecordNotSet | src/clib/pio_darray_int.c:590-592 | Two variables with records 0 and 1, of which only the first has been set: the second is put into record 0, where the other writers put it into record 1 |
| PnetcdfWriter.RequestsAreThePuts | src/clib/pio_darray_int.c:475-669 | Right requests of a task amount to exactly the puts of its regions |
| SerialWriter.FindAllStartCount | src/clib/pio_darray_int.c:727-781 | The start and count arrays hold one row for every region, zero past the last |
| SerialWriter.SendAllStartCount | src/clib/pio_darray_int.c:795-837 | A task reports its length and, if it has data, region count, starts, counts and data, in this order and with these tags |
| SerialWriter.ReportTags | src/clib/pio_darray_int.c:795-837 | Message k of task r has tag r + k times the number of IO tasks, and no two messages of any two tasks have the same tag |
| SerialWriter.ReceiveReport | src/clib/pio_darray_int.c:904-938 | Task 0 takes these messages in the order sent; the front of its arrays and buffer then holds the sender's rows and data |
| SerialWriter.SkippedIsEmpty | src/clib/pio_darray_int.c:951-966 | A region that the serial writer skips holds no element |
| SerialWriter.WriteRegion | src/clib/pio_darray_int.c:953-1017 | All variables of a region are put from their part of the buffer, and the size returned is the region's, also when it is skipped |
| SerialWriter.WriteTask | src/clib/pio_darray_int.c:947-1021 | The running offset matches every region's own offset, and the file gets the puts of all regions of the task |
| SerialWriter.RecvAndWriteData | src/clib/pio_darray_int.c:875-1025 | Task 0 leaves the file with the puts of all tasks, though it reuses its arrays and buffer for each |
| WriterAgreement.WriteDarrayMultiSerial | src/clib/pio_darray_int.c:1048-1121 | The whole serial write, from every task's regions to the file |
| WriterAgreement.RegionAgreement | src/clib/pio_darray_int.c:976-988 | For a region with data, serial and parallel puts are the same if and only if the record is added once |
| WriterAgreement.PutsConsistent | src/clib/pio_darray_int.c:435-471 | Disjoint regions and distinct targets give puts that do not overlap in the file |
| Interleaving.TouchingDecides | src/clib/pio_darray_int.c:435-471 | What a file holds under a key depends only on the puts that touch the key, in their order |
| Interleaving.MergedTouching | src/clib/pio_darray_int.c:435-471 | Of an interleaving, the puts that touch a key which one task alone touches are that task's, in its order |
| WriterAgreement.InterleavingIrrelevant | src/clib/pio_darray_int.c:435-471 | Every interleaving of the parallel tasks leaves the file that they leave one after the other, whether the record is added once or not |
| WriterAgreement.WriteDarrayMultiPar | src/clib/pio_darray_int.c:435-471 | The whole netCDF-4 write: for every schedule of the calls of all tasks the file is the one of the tasks one after the other, and the one of the serial writer if the record is added once |
| WriterAgreement.SerialEqualsParallel | src/clib/pio_darray_int.c:875-1025 | Every interleaving of the parallel tasks' calls, each task's in its own order, leaves the file of the serial writer, if the record is added once; a batch may hold the same record of a variable several times |
| WriterAgreement.SerialEqualsAnyOrder | src/clib/pio_darray_int.c:435-471 | If no record of a variable occurs twice in the batch, even the order of one task's calls does not matter |
| WriterAgreement.SerialEqualsPnetcdf | src/clib/pio_darray_int.c:541-669 | The PnetCDF requests, completed in any order, leave the file of the serial writer, if they do not overlap and the record is added once |
| WriterAgreement.AgreementExact | src/clib/pio_darray_int.c:985-988 | The serial writer and any interleaving of the parallel ones leave the same file, for every earlier content, if and only if the record is added once or no region has data to store |
| WriterAgreement.SerialDiffersFromParallel | src/clib/pio_darray_int.c:985-988 | A concrete write of two variables with record 1 after which the files differ |
| Reader.FindReadStartCount | src/clib/pio_darray_int.c:1238-1262 | The start and count arrays for reading a region, including a left-over record count |
| Reader.ReadBoxExact | src/clib/pio_darray_int.c:1238-1262 | The reader reads the box that the writer wrote, for every region, if and only if the shape is one of `ReadsBack` |
| Reader.PioReadDarrayNc | src/clib/pio_darray_int.c:1202-1263 | Every task's buffer becomes the concatenation of its own regions |
| Reader.PioReadDarrayPnetcdf | src/clib/pio_darray_int.c:1202-1374 | The same with one request for the list of regions with data, whose buffer count `rllen` is its total size, also when tasks share elements and `llen` is larger |
| SerialReader.FindAllReadStartCount | src/clib/pio_darray_int.c:1487-1540 | Rows that lead to the task's regions, zero without data or past the last region |
| SerialReader.SendInquiry | src/clib/pio_darray_int.c:1544-1561 | A task sends its length and, if it has data, region count, counts and starts, in this order and with these tags |
| SerialReader.InquiryTags | src/clib/pio_darray_int.c:1544-1561 | The same for the messages of the serial read |
| SerialReader.ReadRegion | src/clib/pio_darray_int.c:1611-1684 | One region is read at the running offset, which stays the region's own and inside the buffer |
| SerialReader.ServeReader | src/clib/pio_darray_int.c:1578-1696 | The reply is the task's own data, whatever rows are left over from an earlier task, and no access leaves the buffer |
| SerialReader.PioReadDarrayNcSerial | src/clib/pio_darray_int.c:1569-1698 | After the loop every task has its own data, task 0 included, which is served last |
| SerialReader.ReadDarraySerial | src/clib/pio_darray_int.c:1487-1698 | The whole serial read: every task ends up with the data of its regions |
| RoundTrip.RegionReadsBack | src/clib/pio_darray_int.c:1238-1262 | After the write, a region of any task reads back as that task's data of the latest entry of the batch with the same variable and record |
| RoundTrip.WriteThenRead | src/clib/pio_darray_int.c:1202-1263 | For every task and entry, reading returns the part of the buffer that the write took the entry from, or the latest entry with the same variable and record if the batch repeats it |
| RoundTrip.ParallelWriteThenRead | src/clib/pio_darray_int.c:435-471 | The same after every interleaving of the parallel tasks' calls |
| RoundTrip.PnetcdfWriteThenRead | src/clib/pio_darray_int.c:541-669 | The same after the PnetCDF requests, completed in any order, for requests that do not overlap |
| RoundTrip.AllRequestedExact | src/clib/pio_darray_int.c:541-669 | The requests of all tasks are right if and only if every task finds the right record for every variable |
| RoundTrip.WriteAndReadSerial | src/clib/pio_darray_int.c:1420-1698 | The serial path from end to end: a batch is written, and every task reads back its own part of every entry |
| RoundTrip.WriteAndReadNetcdf4p | src/clib/pio_darray_int.c:1195-1263 | The netCDF-4 path from end to end: however the calls of all tasks interleave, every task reads back its own part of every entry |
| RoundTrip.WriteAndReadPnetcdf | src/clib/pio_darray_int.c:1195-1374 | The same for the PnetCDF path, for every order in which the requests of all tasks complete, if these do not overlap and every variable finds its record |
| FileContents.ElementStored | src/clib/pio_darray_int.c:435-471 | After the parallel write, element k of any region is in the file under its variable, at the k-th index of the region in row-major order, behind the record of the entry or shifted by the record, and its value is element `nv * llen + loffset + k` of the task's buffer, nv being the latest entry with that variable and record |
| FileContents.ElsewhereUnchanged | src/clib/pio_darray_int.c:435-471 | Every other key of the file keeps its value, or stays absent |
| Contiguity.CheckContiguous | src/clib/pio_darray_int.c:186-213 | `isContig` holds if and only if the subarray has no gap in row-major order, and then displacement and length denote exactly its run |
| Contiguity.GapReachesOut | src/clib/pio_darray_int.c:207-210 | A gap found in the inner dimensions is a gap of the whole subarray, which justifies leaving the loop early |
| BlockList.MisplacedIsTooLong | src/clib/pio_darray_int.c:222-248 | The blocks never describe fewer elements than asked for, and more as soon as a run is misplaced |
| Coalescing.ContinuesMeansBytes | src/clib/pio_darray_int.c:222-238 | A disjoint request can only start where an earlier one ended, counted as the code counts, if elements have one byte |
| Coalescing.CoalescingExact | src/clib/pio_darray_int.c:166-248 | The block list describes the requested bytes in order if and only if no run is misplaced and nothing is added to the displacement of a contiguous request only |
| Coalescing.ContiguousRequestsKeepMeaning | src/clib/pio_darray_int.c:166-248 | Disjoint contiguous requests keep their meaning, for every element size |
| Coalescing.WideElementsKeepMeaning | src/clib/pio_darray_int.c:166-248 | Disjoint requests of any kind keep their meaning when elements have two bytes or more |
| Coalescing.CoalescingLosesMeaning | src/clib/pio_darray_int.c:222-248 | Three concrete disjoint requests of bytes that do not |
| Coalescing.CallExact | src/clib/pio_darray_int.c:174-215 | Apart from misplaced runs, the block list names the bytes that the arguments ask for, in order, if and only if no leading dimension that is not unlimited meets a positive record, an offset and a contiguous request |
| Coalescing.WantedIsAsked | src/clib/pio_darray_int.c:134-184 | What the coalescing is measured against are, request by request, the bytes at the offset of the record plus the element size times the row-major position of each index of the start and count box in the dimensions of the decomposition; with a leading dimension that is not unlimited, the record is the index in that dimension instead |
| Coalescing.RecordIsOffset | src/clib/pio_darray_int.c:184-215 | The second element of record 2 of an unlimited variable with 12 bytes per record is wanted at byte 28, and the one block is there |
| Coalescing.RecordAddedTwice | src/clib/pio_darray_int.c:174-215 | One element of record 1, wanted at byte 12 and described at byte 15 |
| Coalescing.GetVardMpiDatatype | src/clib/pio_darray_int.c:111-258 | The arrays filled by the loop are the coalesced blocks of the requests, with the dimensions, the record offset and the slicing of the file variable, with or without an unlimited dimension |
| MultiBuffer.HashIdInjective | src/clib/pio_darray.c:724-726 | Different decompositions or record kinds have different keys |
| MultiBuffer.ResultExact | src/clib/pio_darray.c:681-722 | Which answer a write gets: no permission, unknown decomposition, invalid if the fill value given differs from the variable's or all arrays are shorter than the parts of the tasks, no error if none is, and stuck if some are |
| MultiBuffer.DecisionExact | src/clib/pio_darray.c:745-790 | The tasks flush to disk if and only if on some task one more than the waiting arrays, times the largest IO buffer and the element size, exceeds INT_MAX, and flush at all if and only if that is so or some task has no room for its array |
| MultiBuffer.PrepareTask | src/clib/pio_darray.c:725-775 | A task's state and its request before the collective decision: buffer found or made, memory grown, 2 for size, 1 for lack of memory |
| MultiBuffer.FlushBuffer | src/clib/pio_darray_int.c:1839-1868 | What waits is handed over in one call and the buffer is empty; an empty buffer makes no call |
| MultiBuffer.StoreArray | src/clib/pio_darray.c:795-845 | Growing, copying and writing the entries stay inside the memory there is and give the buffer with one more array, whose meaning `WriteBehind.AddedEntries` states |
| MultiBuffer.FinishTask | src/clib/pio_darray.c:784-845 | A task's part after the decision amounts to adding the array to the buffer as it was found, or emptied, although the memory was grown before; the call of a flush hands over the grown memory |
| MultiBuffer.File.WriteDarray | src/clib/pio_darray.c:654-856 | One collective write on all tasks; the error that all tasks return alike, without change; or, if only some arrays are too short, the others left waiting in the collective decision |
| MultiBuffer.File.Sync | src/clib/pio_file.c:417-436 | Every buffer of every task is handed over in table order and forgotten |
| MultiBuffer.SyncInTableOrder | src/clib/pio_file.c:417-436 | The calls of a sync follow the order of the table |
| MultiBuffer.File.Closefile | src/clib/pio_file.c:232-235 | Closing syncs first |
| WriteBehind.AddedEntries | src/clib/pio_darray.c:820-845 | If an array joins those waiting, the receiver finds what it would have found before, followed by the new array with its variable, record and fill value |
| WriteBehind.StatesStayValid | src/clib/pio_darray.c:724-845 | In every state of every memory-safe run the lists of every buffer and of every call are complete, and the receiver reads inside the data of every call |
| WriteBehind.NothingLostOrRepeated | src/clib/pio_darray.c:724-845 | In every state reached by writes whose arrays join those waiting, what the receiver was given for a key, followed by what waits, is exactly what was accepted for it, in order and once each |
| WriteBehind.NothingWaitsAfterSync | src/clib/pio_file.c:417-436 | After a sync nothing waits, in every run; everything accepted has been handed over if the arrays join |
| WriteBehind.TasksStayInStep | src/clib/pio_darray.c:752-800 | In every state of every memory-safe run all tasks hold the same arrays and have flushed at the same points, also when memory ran out on some only and whether or not the arrays join |
| WriteBehind.HandOversStayBounded | src/clib/pio_darray.c:770-791 | In every memory-safe run, if one array fits, no buffer and no hand-over ever exceeds the limit |
| WriteBehind.WaitingHasLatestLength | src/clib/pio_darray.c:828 | In every state of every memory-safe run a buffer with arrays carries the length of the latest array that the task got accepted for its key |
| WriteBehind.FlushesExact | src/clib/pio_darray.c:745-800 | In every memory-safe run an accepted write makes a call if and only if something waits for its key and some task exceeds the limit or has no room; the call hands over all that waits for that key with the length of the latest array accepted for it, and goes to disk if and only if some task exceeds the limit |
| WriteBehind.SyncCallsExact | src/clib/pio_file.c:417-436 | Every call of a sync goes to disk, with the length of the latest array accepted for its key |
| WriteBehind.StuckKeepsAccounts | src/clib/pio_darray.c:695-779 | If some tasks refuse a write and the others wait for them, what each task has handed over and holds is unchanged for every key |
| WriteBehind.StrideExact | src/clib/pio_darray.c:820-838 | Stored behind others, an array and all earlier ones are found at the stride of the decomposition, for all contents, if and only if it is the first or has no excess elements |
| WriteBehind.FrameExact | src/clib/pio_darray.c:807-844 | The store is inside the list of records and every array has its own record if and only if the buffer is empty or the waiting arrays have records exactly when the new one has |
| WriteBehind.RecordThenNone | src/clib/pio_darray.c:843-844 | Record 3, then a variable of the same key without record: the store is outside the list |
| WriteBehind.NoneThenRecord | src/clib/pio_darray.c:810-812 | The other way round: the first variable gets a record that nobody has set |
| WriteBehind.JoinsExact | src/clib/pio_darray.c:807-845 | For every buffer, variable and length, the receiver finds the new array and all waiting ones, whatever their contents, if and only if the array joins them |
| PnetcdfBuffers.IoTask.ResetRequests | src/clib/pio_darray_int.c:1760-1777 | Resetting counts up to the last variable that has any resets all of them |
| PnetcdfBuffers.IoTask.FlushOutputBuffer | src/clib/pio_darray_int.c:1723-1811 | A flush that takes place waits for all requests, then frees all buffers; any other only takes part in the reduction |
| PnetcdfBuffers.IoTask.WriteDarrayMulti | src/clib/pio_darray.c:263-434 | One write on an IO task: forced flush if the buffer is in use, a buffer for the data or a token, puts, fill values, final flush |
| PnetcdfBuffers.WrittenValid | src/clib/pio_darray.c:263-434 | A write keeps every unfinished put inside an allocated buffer, leaks none, and neither buffer is overwritten while in use |
| PnetcdfBuffers.TokenIsNotRead | src/clib/pio_darray.c:301-310 | A task without data holds a token of one byte, and the puts that refer to it carry no data |
| PnetcdfBuffers.UnfinishedPuts | src/clib/pio_darray_int.c:541-669 | After a write that no flush follows, every entry of the batch has one unfinished put: element k of entry nv is at byte `(nv * llen + k) * size` of `iobuf`, or for fill values of the first variable's `fillbuf` with the size of the holes; and the count of a variable is the number of times it is in the batch, for each round of puts |
| PnetcdfBuffers.PutsDoNotOverlap | src/clib/pio_darray_int.c:595 | Puts of different entries read different bytes |
| PnetcdfBuffers.CallsOfWrite | src/clib/pio_darray.c:263-434 | The collective calls of a write in order: a wait if the buffer was in use, one for the data, one for the fill values if there are any, the reduction unless a flush is asked for, and a wait if there is one |
| PnetcdfBuffers.BuffersOutliveRequests | src/clib/pio_darray.c:263-434 | In every reachable state every unfinished put reads inside a buffer that is still allocated |
| PnetcdfBuffers.FlushesAreCollective | src/clib/pio_darray.c:263-310 | All IO tasks hold a buffer or token, or none does, whatever data each has, and all make the same collective calls in the same order |
| PnetcdfBuffers.FlushDecided | src/clib/pio_darray_int.c:1744-1763 | In every run a write leaves a task without buffers and requests if and only if it asks for a flush or the usage of some IO task has reached the limit |
| PnetcdfBuffers.SyncLeavesNothing | src/clib/pio_file.c:476-478 | After a sync nothing is allocated, unfinished or counted |
| BoxFill.InsertFill | src/clib/pio_darray.c:293-299 | The loops leave one row of the largest IO task's length for every variable, filled with its fill value |
| BoxFill.FillExact | src/clib/pio_darray.c:293-299 | The holes of every variable hold its own fill value, whatever the values, if and only if one variable is written, or the task has as much data as the largest, or none |
| MsgServer.OutstandingAreOpen | src/clib/pio_msg.c:3083-3110 | At the top of the loop exactly the open components have a receive outstanding, and their messages have been handled in order without loss |
| MsgServer.ClosedMeansAllHandled | src/clib/pio_msg.c:3343-3350 | No component is open if and only if everything every component sent has been handled |
| MsgServer.ClosingEndsBatch | src/clib/pio_msg.c:3344-3354 | When the last component closes, no completed receive of the batch is left over |
| MsgServer.BatchTakesSome | src/clib/pio_msg.c:3113-3352 | Every batch takes as many messages as it has receives, so the loop ends |
| MsgServer.HandleBatch | src/clib/pio_msg.c:3113-3352 | All ranks handle the batch alike, receives are posted again for open components only, and the loop ends exactly at the last EXIT |
| MsgServer.PioMsgHandler2 | src/clib/pio_msg.c:3052-3359 | Whatever some-completions happen, all IO ranks handle one common sequence holding each component's messages in sending order, and leave together |
| Marshal.CountElements | src/clib/pio_getput_int.c:1001-1003 | The number of elements is the product of the counts, one for a scalar |
| Marshal.NumElemIsBox | src/clib/pio_getput_int.c:1001-1003 | That is the number of indices in the box of start and count, and one without counts |
| Marshal.ProductOfAppend | src/clib/pio_getput_int.c:1001-1003 | The number for two groups of dimensions together is the product of the two numbers |
| Marshal.SendVars | src/clib/pio_getput_int.c:1011-1049 | The stub sends the packets of its call: identifiers, flags and optional arrays, type, sizes, data |
| Marshal.PutVarsOnWire | src/clib/pio_getput_int.c:1011-1049 | All packets of a put of 3 by 4 elements, which announces 12 |
| Marshal.GetVarsOnWire | src/clib/pio_getput_int.c:560-600 | All packets of a get of a scalar |
| Marshal.PutVarsHandler | src/clib/pio_msg.c:770-821 | The handler's receives match the packets of a put one by one and yield the same arguments |
| Marshal.GetVarsHandler | src/clib/pio_msg.c:911-948 | The same for a get, with all combinations of optional arrays |
| Marshal.SendPutAtt | src/clib/pio_getput_int.c:78-104 | The stub sends the packets of an attribute with its data |
| Marshal.PutAttOnWire | src/clib/pio_getput_int.c:78-104 | All packets of an attribute of 3 elements of 8 bytes in memory, whose data are 24 bytes |
| Marshal.AttPutHandler | src/clib/pio_msg.c:634-656 | The handler recovers name, types, sizes and data |
| Marshal.SendGetAtt | src/clib/pio_getput_int.c:299-327 | The stub sends the packets of an attribute inquiry |
| Marshal.GetAttOnWire | src/clib/pio_getput_int.c:299-327 | All packets of an attribute inquiry |
| Marshal.AttGetHandler | src/clib/pio_msg.c:703-722 | The handler recovers them |
| Marshal.SendWriteDarrayMulti | src/clib/pio_darray.c:212-245 | The stub sends variables, decomposition, one array's worth of data, optional frames and fill values, flag |
| Marshal.WriteDarrayMultiOnWire | src/clib/pio_darray.c:212-245 | All packets of a write of two variables, of whose 16 bytes of data the first 8 travel |
| Marshal.WriteDarrayMultiHandler | src/clib/pio_msg.c:2560-2600 | The handler recovers all of it, with lengths that depend on what came before |
| Marshal.WholeDataReceived | src/clib/pio_darray.c:228-230 | The data of a multi-variable write arrives whole if and only if there is one variable or no data |
| Marshal.SendReadDarray | src/clib/pio_darray.c:909-923 | The stub sends the four parameters of a distributed read |
| Marshal.ReadDarrayOnWire | src/clib/pio_darray.c:909-923 | All packets of a distributed read |
| Marshal.ReadDarrayHandler | src/clib/pio_msg.c:2661-2668 | The handler recovers them |
| Marshal.SendAll | src/clib/pio_getput_int.c:1011-1049 | A client's calls become their message codes and the concatenation of their packets |
| Marshal.HandleAll | src/clib/pio_msg.c:3128-3318 | The handlers chosen by the codes recover every call of any sequence, with nothing left over |
| SortedCopy.PioSortedCopy | src/clib/pio_darray_int.c:1887-2126 | Direction 0 brings every element to its sorted place, direction 1 puts it back, for every variable; elements behind the variables are left alone |
| SortedCopy.GatheredAt | src/clib/pio_darray_int.c:1887-1905 | Direction 0: position `m + maplen * v` of the result has what was at `remap[m] + maplen * v` |
| SortedCopy.ScatteredAt | src/clib/pio_darray_int.c:2006-2024 | Direction 1: position `remap[m] + maplen * v` of the result has what was at `m + maplen * v` |
| SortedCopy.GatheredRows | src/clib/pio_darray_int.c:1887-1905 | Direction 0 is right if and only if every variable on its own is in the order of `remap` |
| SortedCopy.GatheredExample | src/clib/pio_darray_int.c:1887-1905 | With remap 1, 2, 0 the elements 10, 20, 30 become 20, 30, 10 in direction 0 and 30, 10, 20 in direction 1, and nothing else |
| SortedCopy.ScatterUndoesGather | src/clib/pio_darray.c:311-316 | Putting back after sorting is the identity, for any remap and any number of variables |
| SortedCopy.GatherUndoesScatter | src/clib/pio_darray.c:1021-1026 | Sorting after putting back is the identity |

## Left out

- netCDF, PnetCDF, HDF5, GDAL and MPI themselves: foreign libraries, modelled by their effect on values.
- Rearranging data between compute and IO tasks, and building decompositions: not part of this model; their results are preconditions.
- Typed wrappers and per-type switches: one-line forwards of the generic calls.
- The other message stubs and handlers: the same pattern with fewer fields, so only easy members.
- The handshake messages of the serial write: they carry no data.
- Error returns of MPI and netCDF, error handlers, logging, timing, and failing allocations, except the one that the multi-buffer answers with a flush.
- C integer overflow: the product compared with `INT_MAX` is taken as an integer.
- The list of cached lookups and the iosystem numbers: easy members.
- The order in which PnetCDF completes overlapping requests: unspecified, so only requests that do not overlap are compared.
- `MPI_Type_create_struct` and the joining of several variables' types in the "vard" writer: the block list is the input of the former, the latter adds no computation of its own.
- Coalescing.GetVardMpiDatatype: its three local arrays are sequence variables, so aliasing is not captured.
- SerialWriter.RecvAndWriteData: the reused start, count and IO buffers of task 0 are sequence variables that keep their length, so update in place is captured by value only.
- MultiBuffer.File.WriteDarray: the buffers of a task are values in a sequence in table order, so references into the hash table are not captured. The fill value check compares values, not bytes. The record store must be inside its list, as `WriteBehind.FrameExact` explains; nothing is said about memory after a store that is not.
- WriteBehind.NothingLostOrRepeated: a run ends when a write leaves tasks waiting for others that have returned.
- WriteBehind.StrideExact: says nothing of where arrays lie at the buffer's own stride, which no receiver uses.
- MultiBuffer.PrepareTask: whether memory runs out is a parameter.
- PnetcdfBuffers.IoTask.WriteDarrayMulti: the copying of data is not part of the buffer life cycle.
- MsgServer.PioMsgHandler2: handlers are taken to succeed, at least one component is needed (with none the code does not end), and a component sends nothing after EXIT. Arrival times appear only as the choices of `MPI_Waitsome`.
- SampleSort.ParallelSort: the random generator is a parameter that picks positions.
