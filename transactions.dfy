/** `GetTransactions` (helper.go:214-274): the block range from the
    starting block to the current tip, cut into windows of 1920 blocks,
    fetched one window after the other and concatenated; the first failure
    discards everything gathered and is returned as the error.

    The two tip lookups and the per-window HTTP request, body read and JSON
    decode are not part of this model: their outcomes are inputs. */
module Transactions {
  import opened GoTypes
  import opened Blocks

  /** The widest block range requested from the transaction-history source
      in one call. */
  const BLOCKS_PER_CALL: int := 1920

  /** The `startblock` and `endblock` parameters of one request. */
  datatype Window = Window(startBlock: int, endBlock: int)

  /** What one window's request comes to: `http.Get` failing, reading the
      body failing, `json.Unmarshal` failing, a decoded `result` list (nil
      for `"result": null`), or a decoded body with no `result` member,
      which `json.Unmarshal` leaves the `Result` buffer untouched for. */
  datatype Response<Tx, E> =
    | GetFailed(err: E)
    | ReadFailed(err: E)
    | DecodeFailed(err: E)
    | Decoded(result: seq<Tx>)
    | DecodedWithoutResult
  {
    /** The request, the read and the decode all succeeded. */
    predicate Succeeded() {
      Decoded? || DecodedWithoutResult?
    }

    /** The list a successful window contributes. A body without `result`
        contributes the buffer as the previous window left it: reset to
        nil, as it is before the first window. */
    function Listed(): seq<Tx>
      requires Succeeded()
    {
      if Decoded? then result else []
    }
  }

  /** The loop bound `limit := (currBlockNumber - startingblock) / blocksPerCall`,
      an `int64` subtraction and a division truncating toward zero. */
  function WindowCount(startingBlock: int, currBlock: int): (limit: int)
    requires IsInt64(startingBlock) && IsInt64(currBlock)
    ensures limit * BLOCKS_PER_CALL < TWO_63
  {
    Quo(Wrap64(currBlock - startingBlock), BLOCKS_PER_CALL)
  }

  /** Window number `counter`. The bounds are `int64` sums; the products
      `blocksPerCall * counter` stay below `2^63` for every `counter` the
      loop reaches, so only the sums are wrapped. */
  function WindowAt(startingBlock: int, counter: int): (w: Window)
    ensures IsInt64(w.startBlock) && IsInt64(w.endBlock)
    ensures IsInt64(startingBlock + BLOCKS_PER_CALL * counter)
            && IsInt64(startingBlock + BLOCKS_PER_CALL * (counter + 1))
            ==> w.endBlock == w.startBlock + BLOCKS_PER_CALL
  {
    Window(Wrap64(startingBlock + BLOCKS_PER_CALL * counter),
           Wrap64(startingBlock + BLOCKS_PER_CALL * (counter + 1)))
  }

  /** The windows the loop visits, in order: `counter = 0 .. limit - 1`. */
  function Windows(startingBlock: int, limit: int): (ws: seq<Window>)
    ensures |ws| == if limit > 0 then limit else 0
  {
    seq(if limit > 0 then limit else 0, c => WindowAt(startingBlock, c))
  }

  /** The outcome of a run, with the windows requested over the network in
      the order they were requested. */
  datatype Run<Tx, E> = Run(result: GoResult<seq<Tx>, E>, requested: seq<Window>)

  /** Fetching the windows `ws` in order: the first failing window ends the
      run with that window's error and a nil list; otherwise the windows'
      lists are appended in order. */
  function FetchAll<Tx, E>(address: string, fetch: (string, Window) -> Response<Tx, E>, ws: seq<Window>): (run: Run<Tx, E>)
    ensures run.requested <= ws
    ensures run.result.Ok? ==> run.requested == ws
    ensures run.result.Err? ==> run.result.value == [] && |run.requested| > 0
    decreases |ws|
  {
    if ws == [] then Run(Ok([]), [])
    else
      var before := FetchAll(address, fetch, ws[..|ws| - 1]);
      var w := ws[|ws| - 1];
      assert ws[..|ws| - 1] + [w] == ws;
      if before.result.Err? then before
      else
        var response := fetch(address, w);
        if response.Succeeded() then Run(Ok(before.result.value + response.Listed()), before.requested + [w])
        else Run(Err([], response.err), before.requested + [w])
  }

  /** `GetTransactions(address, days)`, with `latestAtStart` the tip lookup
      inside `GetStartingBlockNumber` and `latestAtEnd` the second lookup. */
  function Aggregate<Tx, E>(address: string, days: int, latestAtStart: GoResult<int, E>,
                            latestAtEnd: GoResult<int, E>, fetch: (string, Window) -> Response<Tx, E>): (run: Run<Tx, E>)
    requires IsInt64(days) && IsInt64(latestAtStart.value) && IsInt64(latestAtEnd.value)
    ensures run.result.Err? ==> run.result.value == []
    ensures run.result.Ok? ==> latestAtStart.Ok? && latestAtEnd.Ok?
  {
    var startingblock := GetStartingBlockNumber(latestAtStart, days);
    if startingblock.Err? then Run(Err([], startingblock.error), [])
    else if latestAtEnd.Err? then Run(Err([], latestAtEnd.error), [])
    else
      var limit := WindowCount(startingblock.value, latestAtEnd.value);
      FetchAll(address, fetch, Windows(startingblock.value, limit))
  }

  /** `GetTransactions(address, days)` given both tip lookups: a failed
      lookup returns `(nil, err)` before any request; otherwise the loop of
      `FetchWindows` runs over the windows from the starting block to the
      second tip. */
  method GetTransactions<Tx, E>(address: string, days: int, latestAtStart: GoResult<int, E>,
                                latestAtEnd: GoResult<int, E>, fetch: (string, Window) -> Response<Tx, E>)
    returns (transactions: GoResult<seq<Tx>, E>, requested: seq<Window>)
    requires IsInt64(days) && IsInt64(latestAtStart.value) && IsInt64(latestAtEnd.value)
    ensures Run(transactions, requested) == Aggregate(address, days, latestAtStart, latestAtEnd, fetch)
  {
    var startingblock := GetStartingBlockNumber(latestAtStart, days);
    if startingblock.Err? {
      return Err([], startingblock.error), [];
    }
    if latestAtEnd.Err? {
      return Err([], latestAtEnd.error), [];
    }
    var limit := WindowCount(startingblock.value, latestAtEnd.value);
    transactions, requested := FetchWindows(address, fetch, startingblock.value, limit);
  }

  /** The aggregation loop `for counter < limit` of `GetTransactions`.
      `requested` lists the windows whose URL was requested, in order.
      `buffer` plays the reused `transactionlist.Result`: filled by the
      decode, copied element by element onto the full list, and reset to nil
      before the next window. */
  method FetchWindows<Tx, E>(address: string, fetch: (string, Window) -> Response<Tx, E>,
                             startingBlock: int, limit: int)
    returns (transactions: GoResult<seq<Tx>, E>, requested: seq<Window>)
    ensures Run(transactions, requested) == FetchAll(address, fetch, Windows(startingBlock, limit))
  {
    var fullList: seq<Tx> := [];
    var buffer: seq<Tx> := [];
    var counter := 0;
    requested := [];
    ghost var ws := Windows(startingBlock, limit);

    while counter < limit
      invariant 0 <= counter <= |ws|
      invariant requested == ws[..counter]
      invariant FetchAll(address, fetch, ws[..counter]) == Run(Ok(fullList), requested)
      invariant buffer == []
      decreases limit - counter
    {
      var w := WindowAt(startingBlock, counter);
      assert w == ws[counter];
      requested := requested + [w];
      assert requested == ws[..counter + 1];
      var response := fetch(address, w);
      if !response.Succeeded() {
        // `http.Get`, `ioutil.ReadAll` or `json.Unmarshal` failed.
        WindowFails(address, fetch, ws, counter);
        return Err([], response.err), requested;
      }
      NextWindow(address, fetch, ws, counter);
      if response.Decoded? {
        buffer := response.result;
      }
      assert buffer == response.Listed();
      fullList := AppendEach(fullList, buffer);
      assert FetchAll(address, fetch, ws[..counter + 1]) == Run(Ok(fullList), requested);
      buffer := [];
      counter := counter + 1;
    }
    assert ws[..counter] == ws;
    return Ok(fullList), requested;
  }

  /** The inner loop `for i := 0; i < len(transactionlist.Result); i++`:
      every element of `buffer`, in order, appended to `list`. */
  method AppendEach<Tx>(list: seq<Tx>, buffer: seq<Tx>) returns (extended: seq<Tx>)
    ensures extended == list + buffer
  {
    extended := list;
    for i := 0 to |buffer|
      invariant extended == list + buffer[..i]
    {
      extended := extended + [buffer[i]];
    }
    assert buffer[..|buffer|] == buffer;
  }

  /** One more window: its failure ends the run with a nil list, its
      list is appended; either way it is requested. */
  lemma NextWindow<Tx, E>(address: string, fetch: (string, Window) -> Response<Tx, E>, ws: seq<Window>, k: nat)
    requires k < |ws| && FetchAll(address, fetch, ws[..k]).result.Ok?
    ensures var before := FetchAll(address, fetch, ws[..k]);
            var response := fetch(address, ws[k]);
            FetchAll(address, fetch, ws[..k + 1])
            == if response.Succeeded() then Run(Ok(before.result.value + response.Listed()), ws[..k + 1])
               else Run(Err([], response.err), ws[..k + 1])
  {
    assert ws[..k + 1][..k] == ws[..k];
  }

  /** A failing window after successful ones ends the whole run with its
      error and a nil list, with no window requested after it. */
  lemma WindowFails<Tx, E>(address: string, fetch: (string, Window) -> Response<Tx, E>, ws: seq<Window>, k: nat)
    requires k < |ws| && FetchAll(address, fetch, ws[..k]).result.Ok?
    requires !fetch(address, ws[k]).Succeeded()
    ensures FetchAll(address, fetch, ws) == Run(Err([], fetch(address, ws[k]).err), ws[..k + 1])
  {
    NextWindow(address, fetch, ws, k);
    FailureIsFinal(address, fetch, ws, k + 1);
  }

  /** Once a prefix of the windows has failed, the later windows are never
      requested and the outcome stays that failure. */
  lemma {:induction false} FailureIsFinal<Tx, E>(address: string, fetch: (string, Window) -> Response<Tx, E>,
                                                ws: seq<Window>, k: nat)
    requires k <= |ws| && FetchAll(address, fetch, ws[..k]).result.Err?
    ensures FetchAll(address, fetch, ws) == FetchAll(address, fetch, ws[..k])
    decreases |ws| - k
  {
    if k < |ws| {
      var ws' := ws[..|ws| - 1];
      assert ws'[..k] == ws[..k];
      FailureIsFinal(address, fetch, ws', k);
    } else {
      assert ws[..k] == ws;
    }
  }

  /** The per-window lists of `ws`, concatenated in window order. */
  function Gathered<Tx, E>(address: string, fetch: (string, Window) -> Response<Tx, E>, ws: seq<Window>): seq<Tx>
    requires forall i :: 0 <= i < |ws| ==> fetch(address, ws[i]).Succeeded()
  {
    if ws == [] then [] else fetch(address, ws[0]).Listed() + Gathered(address, fetch, ws[1..])
  }

  lemma {:induction false} GatheredSnoc<Tx, E>(address: string, fetch: (string, Window) -> Response<Tx, E>, ws: seq<Window>, w: Window)
    requires forall i :: 0 <= i < |ws| ==> fetch(address, ws[i]).Succeeded()
    requires fetch(address, w).Succeeded()
    ensures Gathered(address, fetch, ws + [w]) == Gathered(address, fetch, ws) + fetch(address, w).Listed()
  {
    if ws == [] {
      assert ([] + [w])[1..] == [];
    } else {
      var tail := ws[1..];
      assert (ws + [w])[0] == ws[0];
      assert (ws + [w])[1..] == tail + [w];
      GatheredSnoc(address, fetch, tail, w);
      calc {
        Gathered(address, fetch, ws + [w]);
        fetch(address, ws[0]).Listed() + Gathered(address, fetch, tail + [w]);
        fetch(address, ws[0]).Listed() + (Gathered(address, fetch, tail) + fetch(address, w).Listed());
        (fetch(address, ws[0]).Listed() + Gathered(address, fetch, tail)) + fetch(address, w).Listed();
      }
    }
  }

  /** When every window is decoded, every window is requested once, in order,
      and the result is the in-order concatenation of the windows' lists. */
  lemma {:induction false} AllWindowsSucceed<Tx, E>(address: string, fetch: (string, Window) -> Response<Tx, E>, ws: seq<Window>)
    requires forall i :: 0 <= i < |ws| ==> fetch(address, ws[i]).Succeeded()
    ensures FetchAll(address, fetch, ws) == Run(Ok(Gathered(address, fetch, ws)), ws)
    decreases |ws|
  {
    if ws != [] {
      var init := ws[..|ws| - 1];
      var w := ws[|ws| - 1];
      AllWindowsSucceed(address, fetch, init);
      GatheredSnoc(address, fetch, init, w);
      assert init + [w] == ws;
    }
  }

  /** When window `k` is the first that fails, windows `0 .. k` are requested,
      nothing after them, and the result is a nil list with window `k`'s
      error: the lists of windows `0 .. k - 1` are discarded. */
  lemma FirstFailure<Tx, E>(address: string, fetch: (string, Window) -> Response<Tx, E>, ws: seq<Window>, k: nat)
    requires k < |ws| && !fetch(address, ws[k]).Succeeded()
    requires forall i :: 0 <= i < k ==> fetch(address, ws[i]).Succeeded()
    ensures FetchAll(address, fetch, ws) == Run(Err([], fetch(address, ws[k]).err), ws[..k + 1])
  {
    AllWindowsSucceed(address, fetch, ws[..k]);
    assert ws[..k + 1][..k] == ws[..k];
    FailureIsFinal(address, fetch, ws, k + 1);
  }

  /** Window `k` is the first window of `ws` whose request, read or decode fails. */
  predicate FirstFailureAt<Tx, E>(address: string, fetch: (string, Window) -> Response<Tx, E>, ws: seq<Window>, k: int) {
    && 0 <= k < |ws|
    && !fetch(address, ws[k]).Succeeded()
    && forall i :: 0 <= i < k ==> fetch(address, ws[i]).Succeeded()
  }

  /** All or nothing: a run succeeds exactly when every window decodes, and a
      failed run is the first failing window's error with a nil list, having
      requested the windows up to that one and none after it. */
  lemma FetchAllOutcome<Tx, E>(address: string, fetch: (string, Window) -> Response<Tx, E>, ws: seq<Window>)
    ensures var run := FetchAll(address, fetch, ws);
            && (run.result.Ok? <==> forall i :: 0 <= i < |ws| ==> fetch(address, ws[i]).Succeeded())
            && (run.result.Err? ==>
                  exists k :: FirstFailureAt(address, fetch, ws, k)
                              && run == Run(Err([], fetch(address, ws[k]).err), ws[..k + 1]))
  {
    if forall i :: 0 <= i < |ws| ==> fetch(address, ws[i]).Succeeded() {
      AllWindowsSucceed(address, fetch, ws);
    } else {
      var j :| 0 <= j < |ws| && !fetch(address, ws[j]).Succeeded();
      FirstFailureExists(address, fetch, ws, j);
      var k :| FirstFailureAt(address, fetch, ws, k);
      FirstFailure(address, fetch, ws, k);
    }
  }

  /** Some window fails only if a first one does. */
  lemma {:induction false} FirstFailureExists<Tx, E>(address: string, fetch: (string, Window) -> Response<Tx, E>,
                                                    ws: seq<Window>, j: nat)
    requires j < |ws| && !fetch(address, ws[j]).Succeeded()
    ensures exists k :: FirstFailureAt(address, fetch, ws, k)
    decreases j
  {
    if i :| 0 <= i < j && !fetch(address, ws[i]).Succeeded() {
      FirstFailureExists(address, fetch, ws, i);
    } else {
      assert FirstFailureAt(address, fetch, ws, j);
    }
  }

  /** When the tip - start difference fits in `int64`, the number of windows
      is that difference divided by 1920, truncated toward zero; a
      difference below 1920 (the tip at or before the start included) gives
      no window. */
  lemma WindowCountExact(startingBlock: int, currBlock: int)
    requires IsInt64(startingBlock) && IsInt64(currBlock) && IsInt64(currBlock - startingBlock)
    ensures WindowCount(startingBlock, currBlock) == Quo(currBlock - startingBlock, BLOCKS_PER_CALL)
    ensures currBlock - startingBlock < BLOCKS_PER_CALL <==> Windows(startingBlock, WindowCount(startingBlock, currBlock)) == []
  {
  }

  /** Window `c` of the loop spans exactly 1920 blocks from
      `start + 1920 * c`; it ends where window `c + 1` starts, and the last
      window ends no later than the tip. */
  lemma WindowGeometry(startingBlock: int, currBlock: int, c: int)
    requires IsInt64(startingBlock) && IsInt64(currBlock) && IsInt64(currBlock - startingBlock)
    requires 0 <= c < WindowCount(startingBlock, currBlock)
    ensures WindowAt(startingBlock, c)
            == Window(startingBlock + BLOCKS_PER_CALL * c, startingBlock + BLOCKS_PER_CALL * (c + 1))
    ensures WindowAt(startingBlock, c).endBlock <= currBlock
    ensures c + 1 < WindowCount(startingBlock, currBlock) ==>
              WindowAt(startingBlock, c).endBlock == WindowAt(startingBlock, c + 1).startBlock
  {
  }

  /** A failed tip lookup ends `GetTransactions` with that error and a nil
      list before any window is requested. */
  lemma TipFailure<Tx, E>(address: string, days: int, latestAtStart: GoResult<int, E>,
                          latestAtEnd: GoResult<int, E>, fetch: (string, Window) -> Response<Tx, E>)
    requires IsInt64(days) && IsInt64(latestAtStart.value) && IsInt64(latestAtEnd.value)
    requires latestAtStart.Err? || latestAtEnd.Err?
    ensures var run := Aggregate(address, days, latestAtStart, latestAtEnd, fetch);
            && run.requested == []
            && run.result == Err([], if latestAtStart.Err? then latestAtStart.error else latestAtEnd.error)
  {
  }

  /** With both lookups answering and a range narrower than one window, no
      window is requested and the result is an empty list with no error. */
  lemma NoWindowNoFetch<Tx, E>(address: string, days: int, tip1: int, tip2: int,
                               fetch: (string, Window) -> Response<Tx, E>)
    requires IsTip(tip1) && IsTip(tip2) && ModestLookback(days)
    requires IsInt64(tip2 - (tip1 - BLOCKS_PER_DAY * days))
    requires tip2 - (tip1 - BLOCKS_PER_DAY * days) < BLOCKS_PER_CALL
    ensures Aggregate(address, days, Ok(tip1), Ok(tip2), fetch) == Run(Ok([]), [])
  {
  }

  /** The run over one tip: `days = 1` at tip 11520 starts at block 5760 and
      requests the three windows (5760, 7680), (7680, 9600), (9600, 11520)
      in that order, returning their lists concatenated. */
  lemma OneDayAtTip11520<Tx, E>(address: string, fetch: (string, Window) -> Response<Tx, E>)
    requires fetch(address, Window(5760, 7680)).Succeeded()
    requires fetch(address, Window(7680, 9600)).Succeeded()
    requires fetch(address, Window(9600, 11520)).Succeeded()
    ensures Aggregate(address, 1, Ok(11520), Ok(11520), fetch)
            == Run(Ok(fetch(address, Window(5760, 7680)).Listed()
                      + fetch(address, Window(7680, 9600)).Listed()
                      + fetch(address, Window(9600, 11520)).Listed()),
                   [Window(5760, 7680), Window(7680, 9600), Window(9600, 11520)])
  {
    assert GetStartingBlockNumber<E>(Ok(11520), 1) == Ok(5760);
    assert WindowCount(5760, 11520) == 3;
    var ws := Windows(5760, 3);
    assert ws == [Window(5760, 7680), Window(7680, 9600), Window(9600, 11520)];
    AllWindowsSucceed(address, fetch, ws);
    assert ws[1..][1..][1..] == [];
    assert Gathered(address, fetch, ws[1..][1..]) == fetch(address, Window(9600, 11520)).Listed();
    assert Gathered(address, fetch, ws[1..]) == fetch(address, Window(7680, 9600)).Listed()
                                                + fetch(address, Window(9600, 11520)).Listed();
    assert Gathered(address, fetch, ws) == fetch(address, Window(5760, 7680)).Listed()
                                           + Gathered(address, fetch, ws[1..]);
    assert Aggregate(address, 1, Ok(11520), Ok(11520), fetch) == FetchAll(address, fetch, ws);
    assert Gathered(address, fetch, ws) == fetch(address, Window(5760, 7680)).Listed()
                                           + fetch(address, Window(7680, 9600)).Listed()
                                           + fetch(address, Window(9600, 11520)).Listed();
  }

  /** The same run when the second window's request fails: the first two
      windows are requested, the third is not, and window 0's list is
      discarded. */
  lemma OneDayAtTip11520SecondFails<Tx, E>(address: string, fetch: (string, Window) -> Response<Tx, E>)
    requires fetch(address, Window(5760, 7680)).Succeeded()
    requires !fetch(address, Window(7680, 9600)).Succeeded()
    ensures Aggregate(address, 1, Ok(11520), Ok(11520), fetch)
            == Run(Err([], fetch(address, Window(7680, 9600)).err),
                   [Window(5760, 7680), Window(7680, 9600)])
  {
    var ws := Windows(5760, 3);
    assert ws == [Window(5760, 7680), Window(7680, 9600), Window(9600, 11520)];
    FirstFailure(address, fetch, ws, 1);
  }
}
