// The output-paging loop of followCLIRunbook (mcp/cli_follow.go) and the page check it rests on
// (mcp/cli_runbooks.go), against a server that may answer anything.

module OutputPages {
  import opened Results

  // A continuation names the execution to go on with; it is valid when it names no other.
  datatype Continuation = Absent | Present(executionID: string)

  datatype Page = Page(
    executionID: string, total: int, returned: int, remaining: int, outputs: seq<string>, next: Continuation)

  // A call can fail, or answer with something that does not decode.
  datatype Reply = CallFailed | Undecodable | Decoded(page: Page)

  datatype PagingError = InvalidContinuation | FailedCall | InvalidOutputs

  // ---------------------------------------------------------------- 64-bit counts

  const MAX_INT: int := 0x7FFF_FFFF_FFFF_FFFF
  const TWO_64: int := 0x1_0000_0000_0000_0000

  predicate IsInt(n: int) { -MAX_INT - 1 <= n <= MAX_INT }

  // Go's addition wraps around.
  function Add(a: int, b: int): (r: int)
    requires IsInt(a) && IsInt(b)
    ensures IsInt(r)
  {
    if a + b > MAX_INT then a + b - TWO_64 else if a + b < -MAX_INT - 1 then a + b + TWO_64 else a + b
  }

  // Counts decode into machine integers, and no list is longer than one can count.
  predicate InRange(p: Page) {
    IsInt(p.total) && IsInt(p.returned) && IsInt(p.remaining)
  }

  // ---------------------------------------------------------------- one page

  // parseCLIRunbookOutputs
  predicate PageValid(p: Page)
    requires InRange(p)
  {
    && p.executionID != "" && p.total > 0 && p.returned > 0 && p.returned == |p.outputs| && p.remaining >= 0
    && Add(p.returned, p.remaining) <= p.total
    && (p.next.Present? <==> p.remaining > 0)
  }

  // Where the loop stands: nothing read yet, or the counts of the last page.
  datatype Progress = Start | Read(total: int, remaining: int)

  // What the loop asks of the next page.
  predicate PageFits(p: Page, id: string, at: Progress)
    requires InRange(p)
  {
    && PageValid(p) && p.executionID == id
    && match at
       case Start => Add(p.returned, p.remaining) == p.total
       case Read(total, remaining) => p.total == total && Add(p.returned, p.remaining) == remaining
  }

  // ---------------------------------------------------------------- the loop

  // The replies of the server, by call. Any function whose counts fit a machine integer will do.
  type Server = nat -> Reply

  ghost predicate Decodes(server: Server) {
    forall k: nat :: server(k).Decoded? ==> InRange(server(k).page)
  }

  function Left(next: Continuation, at: Progress): nat {
    if next.Absent? then 0 else match at case Start => MAX_INT + 1 case Read(_, remaining) =>
      if remaining < 0 then 0 else remaining
  }

  // The pages the loop collects from call k on.
  ghost function Follow(server: Server, id: string, next: Continuation, at: Progress, k: nat):
      Result<seq<Page>, PagingError>
    requires Decodes(server) && (at.Read? ==> at.remaining >= 0)
    decreases Left(next, at)
  {
    if next.Absent? then Ok([])
    else if next.executionID != id then Refused(InvalidContinuation)
    else match server(k)
      case CallFailed => Refused(FailedCall)
      case Undecodable => Refused(InvalidOutputs)
      case Decoded(page) =>
        if !PageFits(page, id, at) then Refused(InvalidOutputs)
        else
          Falls(page, id, at);
          match Follow(server, id, page.next, Read(page.total, page.remaining), k + 1)
          case Refused(e) => Refused(e)
          case Ok(rest) => Ok([page] + rest)
  }

  // Every page that fits leaves strictly less to fetch; wrap-around never hides that.
  lemma Falls(p: Page, id: string, at: Progress)
    requires InRange(p) && PageFits(p, id, at) && (at.Read? ==> at.remaining >= 0)
    ensures p.returned + p.remaining == if at.Start? then p.total else at.remaining
    ensures Left(p.next, Read(p.total, p.remaining)) < (if at.Start? then MAX_INT + 1 else at.remaining)
  {
  }

  method CollectOutputs(server: Server, id: string, first: Continuation) returns (r: Result<seq<Page>, PagingError>)
    requires Decodes(server)
    ensures r == Follow(server, id, first, Start, 0)
  {
    var pages: seq<Page>, next, k: nat := [], first, 0;
    var previousTotal, previousRemaining := -1, -1;
    ghost var at := Start;
    JoinedNothing(Follow(server, id, first, Start, 0));
    while next.Present?
      invariant at == if pages == [] then Start else Read(previousTotal, previousRemaining)
      invariant pages == [] ==> previousTotal == -1 && previousRemaining == -1
      invariant pages != [] ==> previousTotal >= 0 && previousRemaining >= 0
      invariant Joined(pages, Follow(server, id, next, at, k)) == Follow(server, id, first, Start, 0)
      decreases Left(next, at)
    {
      if next.executionID != id {
        return Refused(InvalidContinuation);
      }
      var reply := server(k);
      if reply.CallFailed? {
        return Refused(FailedCall);
      }
      if reply.Undecodable? {
        return Refused(InvalidOutputs);
      }
      var page := reply.page;
      if !PageValid(page) || page.executionID != id
         || (previousTotal >= 0 && page.total != previousTotal)
         || (previousTotal < 0 && Add(page.returned, page.remaining) != page.total)
         || (previousRemaining >= 0 && Add(page.returned, page.remaining) != previousRemaining) {
        return Refused(InvalidOutputs);
      }
      assert PageFits(page, id, at);
      Falls(page, id, at);
      JoinedNext(pages, page, Follow(server, id, page.next, Read(page.total, page.remaining), k + 1));
      pages := pages + [page];
      previousTotal, previousRemaining := page.total, page.remaining;
      at := Read(previousTotal, previousRemaining);
      next := page.next;
      k := k + 1;
    }
    assert pages + [] == pages;
    return Ok(pages);
  }

  ghost function Joined(pages: seq<Page>, rest: Result<seq<Page>, PagingError>): Result<seq<Page>, PagingError> {
    match rest
    case Refused(e) => Refused(e)
    case Ok(more) => Ok(pages + more)
  }

  lemma JoinedNext(pages: seq<Page>, page: Page, rest: Result<seq<Page>, PagingError>)
    ensures Joined(pages + [page], rest) ==
            Joined(pages, match rest case Refused(e) => Refused(e) case Ok(more) => Ok([page] + more))
  {
    if rest.Ok? {
      assert pages + [page] + rest.value == pages + ([page] + rest.value);
    }
  }

  lemma JoinedNothing(rest: Result<seq<Page>, PagingError>)
    ensures Joined([], rest) == rest
  {
    if rest.Ok? {
      assert [] + rest.value == rest.value;
    }
  }

  // ---------------------------------------------------------------- what the pages hold

  function Outputs(pages: seq<Page>): seq<string> {
    if pages == [] then [] else pages[0].outputs + Outputs(pages[1..])
  }

  // The pages cut `left` outputs of one execution into non-empty pieces, each saying how many are still to come.
  ghost predicate Partition(pages: seq<Page>, id: string, total: int, left: int) {
    if pages == [] then left == 0
    else
      var p := pages[0];
      && p.executionID == id && p.total == total && p.returned == |p.outputs| > 0
      && p.remaining == left - |p.outputs| >= 0
      && p.next == (if p.remaining > 0 then Present(id) else Absent)
      && Partition(pages[1..], id, total, p.remaining)
  }

  lemma {:induction false} PartitionHoldsAll(pages: seq<Page>, id: string, total: int, left: int)
    requires Partition(pages, id, total, left)
    ensures |Outputs(pages)| == left && |pages| <= left
  {
    if pages != [] {
      PartitionHoldsAll(pages[1..], id, total, pages[0].remaining);
    }
  }

  // From a page on, the loop succeeds exactly on the partitions of what is left.
  lemma {:induction false} FollowsPartition(server: Server, id: string, next: Continuation, total: int, left: int,
                                              k: nat)
    requires Decodes(server) && id != "" && 0 <= left <= total && 0 < total <= MAX_INT
    requires next.Present? <==> left > 0
    ensures var r := Follow(server, id, next, Read(total, left), k);
            r.Ok? ==>
              && (left > 0 ==> next == Present(id)) && Partition(r.value, id, total, left)
              && forall i :: 0 <= i < |r.value| ==> server(k + i) == Decoded(r.value[i])
    decreases left
  {
    var r := Follow(server, id, next, Read(total, left), k);
    if r.Ok? && left > 0 {
      var p := server(k).page;
      Falls(p, id, Read(total, left));
      FollowsPartition(server, id, p.next, total, p.remaining, k + 1);
      var rest := Follow(server, id, p.next, Read(total, p.remaining), k + 1);
      assert r.value == [p] + rest.value;
      forall i | 0 <= i < |r.value| ensures server(k + i) == Decoded(r.value[i]) {
        if i > 0 {
          assert server(k + 1 + (i - 1)) == Decoded(rest.value[i - 1]);
        }
      }
    }
  }

  lemma {:induction false} PartitionIsFollowed(server: Server, id: string, next: Continuation, total: int, left: int,
                                               k: nat, pages: seq<Page>)
    requires Decodes(server) && id != "" && 0 <= left <= total && 0 < total <= MAX_INT
    requires next == if left > 0 then Present(id) else Absent
    requires Partition(pages, id, total, left)
    requires forall i :: 0 <= i < |pages| ==> server(k + i) == Decoded(pages[i])
    ensures Follow(server, id, next, Read(total, left), k) == Ok(pages)
    decreases |pages|
  {
    if pages != [] {
      var p := pages[0];
      assert server(k + 0) == Decoded(p);
      assert InRange(p) && PageFits(p, id, Read(total, left));
      forall i | 0 <= i < |pages[1..]| ensures server(k + 1 + i) == Decoded(pages[1..][i]) {
        assert server(k + (i + 1)) == Decoded(pages[i + 1]);
      }
      PartitionIsFollowed(server, id, p.next, total, p.remaining, k + 1, pages[1..]);
      assert pages == [p] + pages[1..];
    }
  }

  lemma FollowUnfolds(server: Server, id: string, next: Continuation, at: Progress, k: nat)
    requires Decodes(server) && (at.Read? ==> at.remaining >= 0) && next == Present(id)
    requires server(k).Decoded? && InRange(server(k).page) && PageFits(server(k).page, id, at)
    ensures var p := server(k).page;
            && p.remaining >= 0
            && Follow(server, id, next, at, k) ==
               match Follow(server, id, p.next, Read(p.total, p.remaining), k + 1)
               case Refused(e) => Refused(e)
               case Ok(rest) => Ok([p] + rest)
  {
    hide Add;
  }

  lemma FollowedPage(server: Server, id: string, next: Continuation, at: Progress, k: nat)
    requires Decodes(server) && (at.Read? ==> at.remaining >= 0) && next.Present?
    requires Follow(server, id, next, at, k).Ok?
    ensures next == Present(id) && server(k).Decoded? && InRange(server(k).page) && PageFits(server(k).page, id, at)
  {
    hide PageFits;
  }

  lemma FirstPage(p: Page, id: string)
    requires InRange(p) && id != ""
    ensures PageFits(p, id, Start) <==>
              && p.executionID == id && p.returned == |p.outputs| > 0 && p.remaining >= 0 && p.total > 0
              && p.returned + p.remaining == p.total && (p.next.Present? <==> p.remaining > 0)
  {
  }

  lemma FollowedIsPartition(server: Server, id: string, pages: seq<Page>)
    requires Decodes(server) && id != "" && Follow(server, id, Present(id), Start, 0) == Ok(pages)
    ensures pages != [] && Partition(pages, id, pages[0].total, pages[0].total)
    ensures forall i :: 0 <= i < |pages| ==> server(i) == Decoded(pages[i])
  {
    FollowedPage(server, id, Present(id), Start, 0);
    FollowUnfolds(server, id, Present(id), Start, 0);
    var p := server(0).page;
    FirstPage(p, id);
    hide Follow, PageFits;
    FollowsPartition(server, id, p.next, p.total, p.remaining, 1);
    var rest := Follow(server, id, p.next, Read(p.total, p.remaining), 1);
    assert pages == [p] + rest.value && pages[1..] == rest.value;
    forall i | 0 <= i < |pages| ensures server(i) == Decoded(pages[i]) {
      if i > 0 {
        assert server(1 + (i - 1)) == Decoded(rest.value[i - 1]);
      }
    }
  }

  lemma WholePartitionIsFollowed(server: Server, id: string, pages: seq<Page>)
    requires Decodes(server) && id != "" && pages != [] && Partition(pages, id, pages[0].total, pages[0].total)
    requires forall i :: 0 <= i < |pages| ==> server(i) == Decoded(pages[i])
    ensures Follow(server, id, Present(id), Start, 0) == Ok(pages)
  {
    var p := pages[0];
    assert server(0) == Decoded(p) && InRange(p);
    FirstPage(p, id);
    FollowUnfolds(server, id, Present(id), Start, 0);
    hide Follow, PageFits;
    forall i | 0 <= i < |pages[1..]| ensures server(1 + i) == Decoded(pages[1..][i]) {
      assert server(i + 1) == Decoded(pages[i + 1]);
    }
    PartitionIsFollowed(server, id, p.next, p.total, p.remaining, 1, pages[1..]);
    assert pages == [p] + pages[1..];
  }

  // The loop succeeds with at least one page exactly when the server's replies are a partition of
  // total_count outputs of this execution; together the pages then hold exactly that many.
  lemma OutputsAreConserved(server: Server, id: string, pages: seq<Page>)
    requires Decodes(server) && id != "" && pages != []
    ensures Follow(server, id, Present(id), Start, 0) == Ok(pages) <==>
              && Partition(pages, id, pages[0].total, pages[0].total)
              && forall i :: 0 <= i < |pages| ==> server(i) == Decoded(pages[i])
    ensures Follow(server, id, Present(id), Start, 0) == Ok(pages) ==>
              |Outputs(pages)| == pages[0].total && |pages| <= pages[0].total
  {
    hide Follow, Partition, Outputs;
    if Follow(server, id, Present(id), Start, 0) == Ok(pages) {
      FollowedIsPartition(server, id, pages);
      PartitionHoldsAll(pages, id, pages[0].total, pages[0].total);
    }
    if Partition(pages, id, pages[0].total, pages[0].total)
       && forall i :: 0 <= i < |pages| ==> server(i) == Decoded(pages[i]) {
      WholePartitionIsFollowed(server, id, pages);
    }
  }

  // ---------------------------------------------------------------- why the loop stops

  // Pages that would go on: those of a partition, but for the last to come.
  ghost predicate Unfinished(pages: seq<Page>, id: string, total: int, left: int) {
    pages == [] ||
      var p := pages[0];
      && p.executionID == id && p.total == total && p.returned == |p.outputs| > 0
      && p.remaining == left - |p.outputs| > 0 && p.next.Present?
      && (|pages| > 1 ==> p.next == Present(id))
      && Unfinished(pages[1..], id, total, p.remaining)
  }

  // A page that does not go on where the last one ended.
  predicate Misfits(p: Page, id: string, total: int, left: int) {
    || p.executionID != id || p.total != total || p.returned != |p.outputs| || p.returned <= 0 || p.remaining < 0
    || p.returned + p.remaining != left || (p.next.Present? <==> p.remaining <= 0)
  }

  // The reason is that of the call after the last page that fits.
  ghost predicate StopsFor(server: Server, id: string, next: Continuation, total: int, left: int, k: nat,
                           e: PagingError)
  {
    match e
    case InvalidContinuation => next.Present? && next.executionID != id
    case FailedCall => next == Present(id) && server(k).CallFailed?
    case InvalidOutputs =>
      && next == Present(id)
      && (server(k).Undecodable? || (server(k).Decoded? && Misfits(server(k).page, id, total, left)))
  }

  lemma LaterPage(p: Page, id: string, total: int, left: int)
    requires InRange(p) && id != "" && 0 < left <= total <= MAX_INT
    ensures PageFits(p, id, Read(total, left)) <==> !Misfits(p, id, total, left)
  {
  }

  lemma StopUnfolds(server: Server, id: string, next: Continuation, at: Progress, k: nat)
    requires Decodes(server) && (at.Read? ==> at.remaining >= 0) && next.Present?
    requires next.executionID != id || !server(k).Decoded? || !PageFits(server(k).page, id, at)
    ensures Follow(server, id, next, at, k) ==
            Refused(if next.executionID != id then InvalidContinuation
                    else if server(k).CallFailed? then FailedCall else InvalidOutputs)
  {
    hide PageFits;
  }

  lemma {:induction false} StopsAfter(server: Server, id: string, next: Continuation, total: int, left: int, k: nat)
      returns (pages: seq<Page>)
    requires Decodes(server) && id != "" && 0 < left <= total <= MAX_INT && next.Present?
    requires Follow(server, id, next, Read(total, left), k).Refused?
    ensures Unfinished(pages, id, total, left) && (pages != [] ==> next == Present(id))
    ensures forall i :: 0 <= i < |pages| ==> server(k + i) == Decoded(pages[i])
    ensures var n := |pages|;
            StopsFor(server, id, if n == 0 then next else pages[n - 1].next, total,
                     if n == 0 then left else pages[n - 1].remaining, k + n,
                     Follow(server, id, next, Read(total, left), k).reason)
    decreases left
  {
    hide PageFits, Follow;
    if next.executionID != id || !server(k).Decoded? || !PageFits(server(k).page, id, Read(total, left)) {
      StopUnfolds(server, id, next, Read(total, left), k);
      if server(k).Decoded? {
        LaterPage(server(k).page, id, total, left);
      }
      pages := [];
    } else {
      var p := server(k).page;
      LaterPage(p, id, total, left);
      FollowUnfolds(server, id, next, Read(total, left), k);
      if p.remaining == 0 {
        FollowEnds(server, id, p.next, Read(p.total, p.remaining), k + 1);
      }
      var rest := StopsAfter(server, id, p.next, total, p.remaining, k + 1);
      pages := [p] + rest;
      assert pages[1..] == rest;
      forall i | 0 <= i < |pages| ensures server(k + i) == Decoded(pages[i]) {
        if i > 0 {
          assert server(k + 1 + (i - 1)) == Decoded(rest[i - 1]);
        }
      }
    }
  }

  // A loop that fails stopped at the first reply that does not go on with a partition of the outputs, and says
  // what was wrong with it: a continuation of another execution, a failed call, or an answer that does
  // not decode or does not fit.
  lemma RefusalTellsWhy(server: Server, id: string, next: Continuation) returns (pages: seq<Page>)
    requires Decodes(server) && id != "" && next.Present? && Follow(server, id, next, Start, 0).Refused?
    ensures forall i :: 0 <= i < |pages| ==> server(i) == Decoded(pages[i])
    ensures var n, e := |pages|, Follow(server, id, next, Start, 0).reason;
            if n == 0 then
              match e
              case InvalidContinuation => next.executionID != id
              case FailedCall => next.executionID == id && server(0).CallFailed?
              case InvalidOutputs =>
                && next.executionID == id && !server(0).CallFailed?
                && (server(0).Decoded? ==>
                      var p := server(0).page; p.total <= 0 || Misfits(p, id, p.total, p.total))
            else
              && next.executionID == id && Unfinished(pages, id, pages[0].total, pages[0].total)
              && StopsFor(server, id, pages[n - 1].next, pages[0].total, pages[n - 1].remaining, n, e)
  {
    hide PageFits, Follow;
    if next.executionID != id || !server(0).Decoded? || !PageFits(server(0).page, id, Start) {
      StopUnfolds(server, id, next, Start, 0);
      if server(0).Decoded? {
        FirstPage(server(0).page, id);
      }
      pages := [];
    } else {
      pages := StopsLater(server, id, next);
    }
  }

  lemma StopsLater(server: Server, id: string, next: Continuation) returns (pages: seq<Page>)
    requires Decodes(server) && id != "" && next == Present(id) && Follow(server, id, next, Start, 0).Refused?
    requires server(0).Decoded? && InRange(server(0).page) && PageFits(server(0).page, id, Start)
    ensures pages != [] && Unfinished(pages, id, pages[0].total, pages[0].total)
    ensures forall i :: 0 <= i < |pages| ==> server(i) == Decoded(pages[i])
    ensures var last := pages[|pages| - 1];
            StopsFor(server, id, last.next, pages[0].total, last.remaining, |pages|,
                     Follow(server, id, next, Start, 0).reason)
  {
    hide PageFits, Follow;
    var p := server(0).page;
    FirstPage(p, id);
    FollowUnfolds(server, id, next, Start, 0);
    if p.remaining == 0 {
      FollowEnds(server, id, p.next, Read(p.total, p.remaining), 1);
    }
    hide StopsFor, Misfits, InRange;
    var rest := StopsAfter(server, id, p.next, p.total, p.remaining, 1);
    pages := [p] + rest;
    assert pages[1..] == rest && pages[|pages| - 1] == if rest == [] then p else rest[|rest| - 1];
    forall i | 0 <= i < |pages| ensures server(i) == Decoded(pages[i]) {
      if i > 0 {
        assert server(1 + (i - 1)) == Decoded(rest[i - 1]);
      }
    }
  }

  lemma FollowEnds(server: Server, id: string, next: Continuation, at: Progress, k: nat)
    requires Decodes(server) && (at.Read? ==> at.remaining >= 0) && next.Absent?
    ensures Follow(server, id, next, at, k) == Ok([])
  {
  }
}
