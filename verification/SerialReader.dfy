/**
 * The serial reader: task 0 learns the starts and counts of every task, reads the regions into its
 * own buffer and sends the data back; its own data is read last.
 */
module SerialReader {
  import opened Sequences
  import opened Hyperslabs
  import opened Decomposition
  import opened Messages
  import opened StartCount
  import opened Reader

  /** The regions and data length of one IO task. */
  datatype Part = Part(regions: seq<Region>, llen: nat)

  /** One start row and one count row for every region. */
  datatype Rows = Rows(starts: seq<seq<int>>, counts: seq<seq<nat>>)

  /** Row `r` leads to region `r`; without data, or past the last region, it is zero. */
  ghost predicate IsRow(sh: Shape, part: Part, r: nat, start: seq<int>, count: seq<nat>)
    requires ValidRead(sh, part.regions, part.llen)
  {
    if part.llen > 0 && r < |part.regions| then
      |count| == sh.fndims && start == ReadStart(sh, part.regions[r]) &&
      count == ReadCount(sh, part.regions[r], count[0])
    else start == Zeros(sh.fndims) && count == Zeros(sh.fndims)
  }

  ghost predicate RowsFor(sh: Shape, part: Part, maxregions: nat, rows: Rows) {
    ValidRead(sh, part.regions, part.llen) && |part.regions| <= maxregions &&
    |rows.starts| == |rows.counts| == maxregions &&
    (forall r :: 0 <= r < maxregions ==> |rows.starts[r]| == |rows.counts[r]| == sh.fndims) &&
    forall r :: 0 <= r < maxregions ==> IsRow(sh, part, r, rows.starts[r], rows.counts[r])
  }

  method FindReadRow(sh: Shape, part: Part, r: nat, start: array<int>, count: array<nat>)
    requires ValidRead(sh, part.regions, part.llen) && start.Length == count.Length == sh.fndims
    modifies start, count
    ensures IsRow(sh, part, r, start[..], count[..])
  {
    if r >= |part.regions| || part.llen == 0 {
      for i := 0 to sh.fndims
        invariant forall k :: 0 <= k < i ==> start[k] == 0 && count[k] == 0
      {
        start[i] := 0;
        count[i] := 0;
      }
      assert start[..] == Zeros(sh.fndims) && count[..] == Zeros(sh.fndims);
    } else {
      ghost var leftOver := count[0];
      FindReadStartCount(sh, part.regions[r], start, count);
      assert count[..] == ReadCount(sh, part.regions[r], leftOver);
    }
  }

  /** Puts together the start and count arrays of all regions. */
  method FindAllReadStartCount(sh: Shape, part: Part, maxregions: nat)
    returns (tmpStart: seq<int>, tmpCount: seq<nat>, rows: Rows)
    requires ValidRead(sh, part.regions, part.llen) && |part.regions| <= maxregions
    ensures RowsFor(sh, part, maxregions, rows)
    ensures tmpStart == Flatten(rows.starts) && tmpCount == Flatten(rows.counts)
  {
    tmpStart, tmpCount, rows := [], [], Rows([], []);
    var start, count := new int[sh.fndims], new nat[sh.fndims];
    var regioncnt := 0;
    while regioncnt < maxregions
      invariant 0 <= regioncnt <= maxregions
      invariant |rows.starts| == |rows.counts| == regioncnt
      invariant tmpStart == Flatten(rows.starts) && tmpCount == Flatten(rows.counts)
      invariant forall r :: 0 <= r < regioncnt ==> |rows.starts[r]| == |rows.counts[r]| == sh.fndims
      invariant forall r :: 0 <= r < regioncnt ==> IsRow(sh, part, r, rows.starts[r], rows.counts[r])
    {
      FindReadRow(sh, part, regioncnt, start, count);
      FlattenSnoc(rows.starts, start[..]);
      FlattenSnoc(rows.counts, count[..]);
      tmpStart := tmpStart + start[..];
      tmpCount := tmpCount + count[..];
      rows := Rows(rows.starts + [start[..]], rows.counts + [count[..]]);
      regioncnt := regioncnt + 1;
    }
  }

  /** What an IO task other than 0 sends to task 0: the counts go before the starts. */
  ghost function Inquiry(part: Part, rank: nat, numIotasks: nat, maxregions: nat, rows: Rows): seq<Message> {
    [Message(rank, Length(part.llen))] +
    if part.llen == 0 then []
    else [
      Message(numIotasks + rank, RegionCount(maxregions)),
      Message(2 * numIotasks + rank, Counts(Flatten(rows.counts))),
      Message(3 * numIotasks + rank, Starts(Flatten(rows.starts)))]
  }

  lemma InquiryTag(part: Part, rank: nat, k: nat, numIotasks: nat, maxregions: nat, rows: Rows)
    requires k < |Inquiry(part, rank, numIotasks, maxregions, rows)|
    ensures Inquiry(part, rank, numIotasks, maxregions, rows)[k].tag == rank + k * numIotasks
  {
    assert k == 0 || k == 1 || k == 2 || k == 3;
  }

  /** No two messages of the inquiries of all tasks have the same tag. */
  lemma InquiryTags(
    part: Part, rank: nat, k: nat, rows: Rows, part': Part, rank': nat, k': nat, rows': Rows, numIotasks: nat,
    maxregions: nat)
    requires rank < numIotasks && k < |Inquiry(part, rank, numIotasks, maxregions, rows)|
    requires rank' < numIotasks && k' < |Inquiry(part', rank', numIotasks, maxregions, rows')|
    ensures Inquiry(part, rank, numIotasks, maxregions, rows)[k].tag == rank + k * numIotasks
    ensures var a, b := Inquiry(part, rank, numIotasks, maxregions, rows),
        Inquiry(part', rank', numIotasks, maxregions, rows');
      a[k].tag == b[k'].tag <==> rank == rank' && k == k'
  {
    InquiryTag(part, rank, k, numIotasks, maxregions, rows);
    InquiryTag(part', rank', k', numIotasks, maxregions, rows');
    if rank + k * numIotasks == rank' + k' * numIotasks {
      TagsDistinct(rank, k, rank', k', numIotasks);
    }
  }

  method SendInquiry(part: Part, rank: nat, numIotasks: nat, maxregions: nat, tmpStart: seq<int>, tmpCount: seq<nat>,
    ghost rows: Rows) returns (sent: seq<Message>)
    requires tmpStart == Flatten(rows.starts) && tmpCount == Flatten(rows.counts)
    ensures sent == Inquiry(part, rank, numIotasks, maxregions, rows)
  {
    sent := [Message(rank, Length(part.llen))];
    if part.llen > 0 {
      sent := sent + [Message(numIotasks + rank, RegionCount(maxregions))];
      sent := sent + [Message(2 * numIotasks + rank, Counts(tmpCount))];
      sent := sent + [Message(3 * numIotasks + rank, Starts(tmpStart))];
    }
  }

  /** The front of the buffer holds the first `n` regions of the part, if the part has data. */
  ghost predicate ReadSoFar(
    file: FileData, fill: Value, sh: Shape, varid: int, part: Part, n: nat, loffset: nat, iobuf: seq<Value>)
    requires ValidRead(sh, part.regions, part.llen)
  {
    var k := Min(n, |part.regions|);
    if part.llen > 0 then
      loffset == Sum(Sizes(part.regions)[..k]) &&
      Reader.Holds(file, fill, sh, varid, part.regions, part.llen, k, iobuf)
    else loffset == 0
  }

  lemma DataRow(
    file: FileData, fill: Value, sh: Shape, varid: int, start: seq<int>, count: seq<nat>, loffset: nat,
    iobuf: seq<Value>, part: Part, r: nat)
    requires ValidRead(sh, part.regions, part.llen) && 0 < part.llen <= |iobuf| && r < |part.regions|
    requires |start| == |count| == sh.fndims && IsRow(sh, part, r, start, count)
    requires ReadSoFar(file, fill, sh, varid, part, r, loffset, iobuf)
    ensures loffset + Product(count) <= |iobuf|
    ensures ReadSoFar(file, fill, sh, varid, part, r + 1, loffset + Product(count),
                      Place(iobuf, loffset, Get(file, fill, varid, start, count)))
  {
    var region := part.regions[r];
    GetMatchesRegion(file, fill, sh, varid, region, count[0]);
    assert InOrder(part.regions, r);
    PlaceRegion(file, fill, sh, varid, part.regions, part.llen, r, iobuf);
    SumSnoc(Sizes(part.regions), r);
  }

  lemma EmptyRow(
    file: FileData, fill: Value, sh: Shape, varid: int, start: seq<int>, count: seq<nat>, loffset: nat,
    iobuf: seq<Value>, part: Part, r: nat)
    requires ValidRead(sh, part.regions, part.llen) && part.llen <= |iobuf|
    requires part.llen == 0 || r >= |part.regions|
    requires |start| == |count| == sh.fndims && IsRow(sh, part, r, start, count)
    requires ReadSoFar(file, fill, sh, varid, part, r, loffset, iobuf)
    ensures Product(count) == 0 && loffset <= |iobuf|
    ensures ReadSoFar(file, fill, sh, varid, part, r + 1, loffset, iobuf)
    ensures Place(iobuf, loffset, Get(file, fill, varid, start, count)) == iobuf
  {
    ProductOfZero(count, 0);
    if part.llen > 0 {
      assert Sizes(part.regions)[..|part.regions|] == Sizes(part.regions);
    }
  }

  /** Reads one region into the buffer at the running offset and stays within the buffer. */
  method ReadRegion(
    file: FileData, fill: Value, sh: Shape, varid: int, start: seq<int>, count: seq<nat>, loffset: nat,
    iobuf: seq<Value>, ghost part: Part, ghost r: nat) returns (next: nat, iobuf': seq<Value>)
    requires ValidRead(sh, part.regions, part.llen) && part.llen <= |iobuf|
    requires |start| == |count| == sh.fndims && IsRow(sh, part, r, start, count)
    requires ReadSoFar(file, fill, sh, varid, part, r, loffset, iobuf)
    ensures |iobuf'| == |iobuf|
    ensures ReadSoFar(file, fill, sh, varid, part, r + 1, next, iobuf')
  {
    if part.llen > 0 && r < |part.regions| {
      DataRow(file, fill, sh, varid, start, count, loffset, iobuf, part, r);
    } else {
      EmptyRow(file, fill, sh, varid, start, count, loffset, iobuf, part, r);
    }
    var regionsize := Product(count);
    next := loffset + regionsize;
    iobuf' := Place(iobuf, loffset, Get(file, fill, varid, start, count));
  }

  /** Row `r` as it is found in the arrays. */
  lemma FetchRow(sh: Shape, part: Part, maxregions: nat, rows: Rows, r: nat, at: nat)
    requires RowsFor(sh, part, maxregions, rows) && r < maxregions && at == r * sh.fndims
    ensures at + sh.fndims <= |Flatten(rows.starts)| && at + sh.fndims <= |Flatten(rows.counts)|
    ensures IsRow(sh, part, r, Flatten(rows.starts)[at..at + sh.fndims], Flatten(rows.counts)[at..at + sh.fndims])
  {
    FlattenRow(rows.starts, sh.fndims, r);
    FlattenRow(rows.counts, sh.fndims, r);
  }

  method TakeRow(
    sh: Shape, ghost maxregions: nat, starts: seq<int>, counts: seq<nat>, r: nat, ghost part: Part, ghost rows: Rows)
    returns (start: seq<int>, count: seq<nat>)
    requires RowsFor(sh, part, maxregions, rows) && r < maxregions
    requires starts == Flatten(rows.starts) && counts == Flatten(rows.counts)
    ensures |start| == |count| == sh.fndims && IsRow(sh, part, r, start, count)
  {
    var at := r * sh.fndims;
    FetchRow(sh, part, maxregions, rows, r, at);
    start, count := starts[at..at + sh.fndims], counts[at..at + sh.fndims];
  }

  /** Takes row `r` out of the arrays and reads its region. */
  method ReadRow(
    file: FileData, fill: Value, sh: Shape, varid: int, maxregions: nat, starts: seq<int>, counts: seq<nat>,
    r: nat, loffset: nat, iobuf: seq<Value>, ghost part: Part, ghost rows: Rows) returns (next: nat, iobuf': seq<Value>)
    requires RowsFor(sh, part, maxregions, rows) && part.llen <= |iobuf| && r < maxregions
    requires starts == Flatten(rows.starts) && counts == Flatten(rows.counts)
    requires ReadSoFar(file, fill, sh, varid, part, r, loffset, iobuf)
    ensures |iobuf'| == |iobuf|
    ensures ReadSoFar(file, fill, sh, varid, part, r + 1, next, iobuf')
  {
    var start, count := TakeRow(sh, maxregions, starts, counts, r, part, rows);
    next, iobuf' := ReadRegion(file, fill, sh, varid, start, count, loffset, iobuf, part, r);
  }

  lemma ReadToTheEnd(
    file: FileData, fill: Value, sh: Shape, varid: int, part: Part, n: nat, loffset: nat, iobuf: seq<Value>)
    requires ValidRead(sh, part.regions, part.llen) && part.llen <= |iobuf| && |part.regions| <= n
    requires ReadSoFar(file, fill, sh, varid, part, n, loffset, iobuf)
    ensures iobuf[..part.llen] == TaskRead(file, fill, sh, varid, part.regions, part.llen, |part.regions|)
  {
    if part.llen > 0 {
      AllPlaced(file, fill, sh, varid, part.regions, part.llen, iobuf);
    } else {
      NothingToRead(file, fill, sh, varid, part.regions, |part.regions|);
    }
  }

  /** Reads all regions of one part. Only a part with data determines what the buffer holds. */
  method ReadRegions(
    file: FileData, fill: Value, sh: Shape, varid: int, maxregions: nat, starts: seq<int>, counts: seq<nat>,
    iobuf0: seq<Value>, ghost part: Part, ghost rows: Rows) returns (iobuf: seq<Value>)
    requires RowsFor(sh, part, maxregions, rows) && part.llen <= |iobuf0|
    requires starts == Flatten(rows.starts) && counts == Flatten(rows.counts)
    ensures |iobuf| == |iobuf0|
    ensures iobuf[..part.llen] == TaskRead(file, fill, sh, varid, part.regions, part.llen, |part.regions|)
  {
    iobuf := iobuf0;
    var loffset := 0;
    var regioncnt := 0;
    while regioncnt < maxregions
      invariant 0 <= regioncnt <= maxregions && |iobuf| == |iobuf0|
      invariant ReadSoFar(file, fill, sh, varid, part, regioncnt, loffset, iobuf)
    {
      loffset, iobuf :=
        ReadRow(file, fill, sh, varid, maxregions, starts, counts, regioncnt, loffset, iobuf, part, rows);
      regioncnt := regioncnt + 1;
    }
    ReadToTheEnd(file, fill, sh, varid, part, maxregions, loffset, iobuf);
  }

  /** What task 0 works with. */
  ghost predicate Inquired(
    sh: Shape, parts: seq<Part>, rows: seq<Rows>, maxregions: nat, maxiobuflen: nat, inboxes: seq<seq<Message>>) {
    |inboxes| == |parts| == |rows| > 0 &&
    (forall t :: 0 <= t < |parts| ==> RowsFor(sh, parts[t], maxregions, rows[t]) && parts[t].llen <= maxiobuflen) &&
    forall t :: 0 < t < |parts| ==> inboxes[t] == Inquiry(parts[t], t, |parts|, maxregions, rows[t])
  }

  ghost function PartRead(file: FileData, fill: Value, sh: Shape, varid: int, part: Part): seq<Value>
    requires ValidRead(sh, part.regions, part.llen)
  {
    TaskRead(file, fill, sh, varid, part.regions, part.llen, |part.regions|)
  }

  /** The arrays of task 0 hold the rows of some part that fits the buffer, or no region is to be read. */
  ghost predicate Stale(sh: Shape, M: nat, maxiobuflen: nat, regions: nat, starts: seq<int>, counts: seq<nat>) {
    regions == 0 ||
    (regions == M && exists part: Part, rows: Rows ::
      RowsFor(sh, part, M, rows) && part.llen <= maxiobuflen &&
      starts == Flatten(rows.starts) && counts == Flatten(rows.counts))
  }

  /**
   * One turn of task 0 for another task. When that task has no data, the region count and the arrays
   * are those of an earlier task; what is read then is not sent.
   */
  method ServeReader(
    file: FileData, fill: Value, sh: Shape, varid: int, inbox: seq<Message>, rtask: nat, numIotasks: nat,
    maxregions0: nat, starts0: seq<int>, counts0: seq<nat>, iobuf0: seq<Value>,
    ghost M: nat, ghost maxiobuflen: nat, ghost part: Part, ghost rows: Rows)
    returns (maxregions: nat, starts: seq<int>, counts: seq<nat>, iobuf: seq<Value>, reply: seq<Value>)
    requires RowsFor(sh, part, M, rows) && part.llen <= maxiobuflen <= |iobuf0|
    requires inbox == Inquiry(part, rtask, numIotasks, M, rows)
    requires Stale(sh, M, maxiobuflen, maxregions0, starts0, counts0)
    ensures |iobuf| == |iobuf0|
    ensures Stale(sh, M, maxiobuflen, maxregions, starts, counts)
    ensures reply == PartRead(file, fill, sh, varid, part)
  {
    maxregions, starts, counts := maxregions0, starts0, counts0;
    assert inbox[0].tag == rtask;
    var tmpBufsize := inbox[0].body.n;
    if tmpBufsize > 0 {
      assert inbox[1].tag == numIotasks + rtask && inbox[2].tag == 2 * numIotasks + rtask;
      assert inbox[3].tag == 3 * numIotasks + rtask;
      maxregions := inbox[1].body.n;
      counts := inbox[2].body.counts;
      starts := inbox[3].body.starts;
      iobuf := ReadRegions(file, fill, sh, varid, maxregions, starts, counts, iobuf0, part, rows);
      reply := iobuf[..tmpBufsize];
    } else {
      NothingToRead(file, fill, sh, varid, part.regions, |part.regions|);
      reply := [];
      iobuf := iobuf0;
      if maxregions > 0 {
        ghost var old_part: Part, old_rows: Rows :| RowsFor(sh, old_part, M, old_rows) &&
          old_part.llen <= maxiobuflen && starts == Flatten(old_rows.starts) && counts == Flatten(old_rows.counts);
        iobuf := ReadRegions(file, fill, sh, varid, maxregions, starts, counts, iobuf0, old_part, old_rows);
      }
    }
  }

  /** The replies to the tasks before `n`, from task 1 on. */
  ghost predicate Served(
    file: FileData, fill: Value, sh: Shape, varid: int, parts: seq<Part>, maxregions: nat, rows: seq<Rows>, n: nat,
    replies: seq<seq<Value>>)
    requires n <= |parts| == |rows|
  {
    |replies| == n &&
    forall t :: 0 < t < n ==>
      RowsFor(sh, parts[t], maxregions, rows[t]) && replies[t] == PartRead(file, fill, sh, varid, parts[t])
  }

  lemma ServedSnoc(
    file: FileData, fill: Value, sh: Shape, varid: int, parts: seq<Part>, maxregions: nat, rows: seq<Rows>, n: nat,
    replies: seq<seq<Value>>, reply: seq<Value>)
    requires 0 < n < |parts| == |rows| && Served(file, fill, sh, varid, parts, maxregions, rows, n, replies)
    requires RowsFor(sh, parts[n], maxregions, rows[n]) && reply == PartRead(file, fill, sh, varid, parts[n])
    ensures Served(file, fill, sh, varid, parts, maxregions, rows, n + 1, replies + [reply])
  {
  }

  /** Task 0 serves all other tasks and then itself. Every task gets the data of its own regions. */
  method PioReadDarrayNcSerial(
    file: FileData, fill: Value, sh: Shape, varid: int, own: Part, maxregions: nat, tmpStart: seq<int>,
    tmpCount: seq<nat>,
    inboxes: seq<seq<Message>>, buf: seq<Value>, ghost parts: seq<Part>, ghost rows: seq<Rows>, ghost maxiobuflen: nat)
    returns (replies: seq<seq<Value>>, iobuf: seq<Value>)
    requires Inquired(sh, parts, rows, maxregions, maxiobuflen, inboxes) && own == parts[0]
    requires tmpStart == Flatten(rows[0].starts) && tmpCount == Flatten(rows[0].counts)
    requires maxiobuflen <= |buf|
    ensures |iobuf| == |buf| && Served(file, fill, sh, varid, parts, maxregions, rows, |parts|, replies)
    ensures RowsFor(sh, own, maxregions, rows[0]) && iobuf[..own.llen] == PartRead(file, fill, sh, varid, own)
  {
    iobuf, replies := buf, [[]];
    var thisRegions := 0;
    var thisStart: seq<int>, thisCount: seq<nat> := [], [];
    var rtask := 1;
    while rtask < |inboxes|
      invariant 1 <= rtask <= |inboxes| && |iobuf| == |buf|
      invariant Stale(sh, maxregions, maxiobuflen, thisRegions, thisStart, thisCount)
      invariant Served(file, fill, sh, varid, parts, maxregions, rows, rtask, replies)
    {
      assert RowsFor(sh, parts[rtask], maxregions, rows[rtask]);
      var reply;
      thisRegions, thisStart, thisCount, iobuf, reply := ServeReader(
        file, fill, sh, varid, inboxes[rtask], rtask, |inboxes|, thisRegions, thisStart, thisCount, iobuf, maxregions,
        maxiobuflen, parts[rtask], rows[rtask]);
      ServedSnoc(file, fill, sh, varid, parts, maxregions, rows, rtask, replies, reply);
      replies := replies + [reply];
      rtask := rtask + 1;
    }
    assert RowsFor(sh, own, maxregions, rows[0]);
    iobuf := ReadRegions(file, fill, sh, varid, maxregions, tmpStart, tmpCount, iobuf, own, rows[0]);
  }

  ghost predicate ValidParts(sh: Shape, parts: seq<Part>, maxregions: nat, maxiobuflen: nat) {
    parts != [] && forall t :: 0 <= t < |parts| ==>
      ValidRead(sh, parts[t].regions, parts[t].llen) && |parts[t].regions| <= maxregions && parts[t].llen <= maxiobuflen
  }

  /** The first `n` tasks have prepared their rows, and those other than 0 have sent them. */
  ghost predicate Prepared(
    sh: Shape, parts: seq<Part>, maxregions: nat, n: nat, rows: seq<Rows>, inboxes: seq<seq<Message>>)
    requires n <= |parts|
  {
    |inboxes| == |rows| == n && (forall k :: 0 <= k < n ==> RowsFor(sh, parts[k], maxregions, rows[k])) &&
    forall k :: 0 < k < n ==> inboxes[k] == Inquiry(parts[k], k, |parts|, maxregions, rows[k])
  }

  /** One IO task other than 0. */
  method Inquire(sh: Shape, part: Part, rank: nat, numIotasks: nat, maxregions: nat)
    returns (sent: seq<Message>, rows: Rows)
    requires ValidRead(sh, part.regions, part.llen) && |part.regions| <= maxregions
    ensures RowsFor(sh, part, maxregions, rows) && sent == Inquiry(part, rank, numIotasks, maxregions, rows)
  {
    var starts, counts;
    starts, counts, rows := FindAllReadStartCount(sh, part, maxregions);
    sent := SendInquiry(part, rank, numIotasks, maxregions, starts, counts, rows);
  }

  lemma PreparedSnoc(
    sh: Shape, parts: seq<Part>, maxregions: nat, n: nat, rows: seq<Rows>, inboxes: seq<seq<Message>>, r: Rows,
    sent: seq<Message>)
    requires 0 < n < |parts| && Prepared(sh, parts, maxregions, n, rows, inboxes)
    requires RowsFor(sh, parts[n], maxregions, r) && sent == Inquiry(parts[n], n, |parts|, maxregions, r)
    ensures Prepared(sh, parts, maxregions, n + 1, rows + [r], inboxes + [sent])
  {
  }

  /** All IO tasks prepare their rows; those other than 0 send them to task 0. */
  method GatherInquiries(sh: Shape, parts: seq<Part>, maxregions: nat, ghost maxiobuflen: nat)
    returns (inboxes: seq<seq<Message>>, rows: seq<Rows>, tmpStart: seq<int>, tmpCount: seq<nat>)
    requires ValidParts(sh, parts, maxregions, maxiobuflen)
    ensures Inquired(sh, parts, rows, maxregions, maxiobuflen, inboxes)
    ensures tmpStart == Flatten(rows[0].starts) && tmpCount == Flatten(rows[0].counts)
  {
    var row;
    tmpStart, tmpCount, row := FindAllReadStartCount(sh, parts[0], maxregions);
    inboxes, rows := [[]], [row];
    for t := 1 to |parts|
      invariant Prepared(sh, parts, maxregions, t, rows, inboxes) && rows[0] == row
    {
      var sent, r := Inquire(sh, parts[t], t, |parts|, maxregions);
      PreparedSnoc(sh, parts, maxregions, t, rows, inboxes, r, sent);
      inboxes, rows := inboxes + [sent], rows + [r];
    }
  }

  /** The whole serial read, run by all IO tasks: every task ends up with the data of its own regions. */
  method ReadDarraySerial(
    file: FileData, fill: Value, sh: Shape, varid: int, parts: seq<Part>, maxregions: nat, buf: seq<Value>,
    ghost maxiobuflen: nat) returns (data: seq<seq<Value>>)
    requires ValidParts(sh, parts, maxregions, maxiobuflen) && maxiobuflen <= |buf|
    ensures |data| == |parts|
    ensures forall t :: 0 <= t < |parts| ==>
      ValidRead(sh, parts[t].regions, parts[t].llen) && data[t] == PartRead(file, fill, sh, varid, parts[t])
  {
    var inboxes, rows, tmpStart, tmpCount := GatherInquiries(sh, parts, maxregions, maxiobuflen);
    var replies, iobuf := PioReadDarrayNcSerial(
      file, fill, sh, varid, parts[0], maxregions, tmpStart, tmpCount, inboxes, buf, parts, rows, maxiobuflen);
    data := [iobuf[..parts[0].llen]] + replies[1..];
  }
}
