// Position and logits bookkeeping of an inference session over its KV cache.
module Session {
  import opened Texts

  type Token = nat

  /** One row of a batch: a token, its position, and whether its logits are wanted. */
  datatype Row = Row(token: Token, pos: nat, logits: bool)

  /** One decoded token in the cache. */
  datatype Placed = Placed(token: Token, pos: nat)

  datatype Failure = EmptyPrompt | ExceedsContext | BatchFull | DecodeFailed

  /** Rows of the tokens `i` to `end` of a prompt that starts at position `start`; the very last token wants logits. */
  function Rows(tokens: seq<Token>, start: nat, i: nat, end: nat): (rows: seq<Row>)
    requires i <= end <= |tokens|
    ensures |rows| == end - i
    decreases end - i
  {
    if i == end then []
    else Rows(tokens, start, i, end - 1) + [Row(tokens[end - 1], start + end - 1, end == |tokens|)]
  }

  function ChunkEnd(i: nat, chunk: nat, total: nat): nat {
    if i + chunk < total then i + chunk else total
  }

  /** The batches that prefilling the tokens from `i` on decodes. */
  function Batches(tokens: seq<Token>, start: nat, chunk: nat, i: nat): seq<seq<Row>>
    requires chunk > 0 && i <= |tokens|
    decreases |tokens| - i
  {
    if i == |tokens| then []
    else
      var end := ChunkEnd(i, chunk, |tokens|);
      [Rows(tokens, start, i, end)] + Batches(tokens, start, chunk, end)
  }

  /** Tokens at consecutive positions. */
  function Place(tokens: seq<Token>, start: nat): (ps: seq<Placed>)
    ensures |ps| == |tokens|
  {
    if tokens == [] then []
    else Place(tokens[..|tokens| - 1], start) + [Placed(tokens[|tokens| - 1], start + |tokens| - 1)]
  }

  function PlacedRows(rows: seq<Row>): (ps: seq<Placed>)
    ensures |ps| == |rows|
  {
    if rows == [] then [] else PlacedRows(rows[..|rows| - 1]) + [Placed(rows[|rows| - 1].token, rows[|rows| - 1].pos)]
  }

  lemma {:induction false} PlacedRowsAre(tokens: seq<Token>, start: nat, i: nat, end: nat)
    requires i <= end <= |tokens|
    ensures Place(tokens[..end], start) == Place(tokens[..i], start) + PlacedRows(Rows(tokens, start, i, end))
    decreases end - i
  {
    var rows := Rows(tokens, start, i, end);
    if i < end {
      PlacedRowsAre(tokens, start, i, end - 1);
      assert tokens[..end][..end - 1] == tokens[..end - 1];
      assert rows[..|rows| - 1] == Rows(tokens, start, i, end - 1);
    } else {
      assert Place(tokens[..i], start) + [] == Place(tokens[..i], start);
    }
  }

  function TokensOf(ps: seq<Placed>): (ts: seq<Token>)
    ensures |ts| == |ps|
  {
    if ps == [] then [] else TokensOf(ps[..|ps| - 1]) + [ps[|ps| - 1].token]
  }

  /** What sampling gives after the tokens in the cache; `None` is the end of generation. */
  type Model = seq<Token> -> Option<Token>

  /** Greedy generation from the cached tokens. */
  function Generate(model: Model, cached: seq<Token>, n: nat): seq<Token>
    decreases n
  {
    if n == 0 || model(cached).None? then []
    else [model(cached).value] + Generate(model, cached + [model(cached).value], n - 1)
  }

  /** The outcomes left after `n` decodes. */
  function Unused(outcomes: seq<bool>, n: nat): seq<bool> {
    if n <= |outcomes| then outcomes[n..] else []
  }

  /** The decode with index `m` is the first to fail. */
  predicate FirstFailure(outcomes: seq<bool>, m: nat) {
    m < |outcomes| && !outcomes[m] && forall k :: 0 <= k < m ==> outcomes[k]
  }

  /** A prefill after `m` chunks, the first `i` tokens, all of whose decodes succeeded. */
  predicate Prefilling(kv: seq<Placed>, kv': seq<Placed>, tokens: seq<Token>, start: nat, chunk: nat,
                       outcomes: seq<bool>, outcomes': seq<bool>, i: nat, m: nat) {
    && i <= |tokens| && (i < |tokens| ==> i == m * chunk) && kv' == kv + Place(tokens[..i], start)
    && outcomes' == Unused(outcomes, m) && forall k :: 0 <= k < m && k < |outcomes| ==> outcomes[k]
  }

  lemma NothingPrefilled(kv: seq<Placed>, tokens: seq<Token>, start: nat, chunk: nat, outcomes: seq<bool>)
    ensures Prefilling(kv, kv, tokens, start, chunk, outcomes, outcomes, 0, 0)
  {}

  /** One more chunk. */
  lemma ChunkPrefilled(kv: seq<Placed>, kv': seq<Placed>, tokens: seq<Token>, start: nat, chunk: nat,
                       outcomes: seq<bool>, outcomes': seq<bool>, i: nat, m: nat)
    requires Prefilling(kv, kv', tokens, start, chunk, outcomes, outcomes', i, m) && i < |tokens| && chunk > 0
    requires outcomes' == [] || outcomes'[0]
    ensures var end := ChunkEnd(i, chunk, |tokens|);
            Prefilling(kv, kv' + PlacedRows(Rows(tokens, start, i, end)), tokens, start, chunk,
                       outcomes, Unused(outcomes', 1), end, m + 1)
  {
    hide Rows, Place, PlacedRows;
    var end := ChunkEnd(i, chunk, |tokens|);
    var rows := Rows(tokens, start, i, end);
    assert (m + 1) * chunk == m * chunk + chunk;
    PlacedRowsAre(tokens, start, i, end);
    assert kv + Place(tokens[..i], start) + PlacedRows(rows) == kv + (Place(tokens[..i], start) + PlacedRows(rows));
  }

  /** The cache after a prefill whose decode number `m` is the first to fail: the chunks before it went in. */
  predicate StoppedAt(kv: seq<Placed>, kv': seq<Placed>, tokens: seq<Token>, start: nat, chunk: nat,
                      outcomes: seq<bool>, m: int) {
    && m >= 0 && FirstFailure(outcomes, m) && 0 <= m * chunk < |tokens|
    && kv' == kv + Place(tokens[..m * chunk], start)
  }

  /** Positions 0 to `n - 1`, each once and in order. */
  predicate InOrder(kv: seq<Placed>, n: nat) {
    |kv| == n && forall i :: 0 <= i < n ==> kv[i].pos == i
  }

  lemma AllPrefilled(kv: seq<Placed>, kv': seq<Placed>, tokens: seq<Token>, start: nat, chunk: nat,
                     outcomes: seq<bool>, outcomes': seq<bool>, m: nat)
    requires Prefilling(kv, kv', tokens, start, chunk, outcomes, outcomes', |tokens|, m)
    ensures kv' == kv + Place(tokens, start)
  {
    assert tokens[..|tokens|] == tokens;
    hide Place;
  }

  lemma StopsThere(kv: seq<Placed>, kv': seq<Placed>, tokens: seq<Token>, start: nat, chunk: nat,
                   outcomes: seq<bool>, outcomes': seq<bool>, i: nat, m: nat)
    requires Prefilling(kv, kv', tokens, start, chunk, outcomes, outcomes', i, m) && i < |tokens|
    requires outcomes' != [] && !outcomes'[0]
    ensures StoppedAt(kv, kv', tokens, start, chunk, outcomes, m)
  {
    hide Place;
  }

  /** After such a prefill positions are still in step exactly when the first chunk failed. */
  lemma StoppedInStep(kv: seq<Placed>, kv': seq<Placed>, tokens: seq<Token>, start: nat, chunk: nat,
                      outcomes: seq<bool>, m: int)
    requires chunk > 0 && InOrder(kv, start) && StoppedAt(kv, kv', tokens, start, chunk, outcomes, m)
    ensures InOrder(kv', start) <==> !outcomes[0]
  {
    assert |kv'| == |kv| + m * chunk;
    if m > 0 {
      assert m * chunk > 0;
    } else {
      assert kv' == kv;
    }
  }

  class Session {
    const capacity: nat
    const maxSeqLen: nat
    const model: Model
    var nCur: nat
    var batch: seq<Row>
    /** What the context holds since it was last cleared. */
    var kv: seq<Placed>
    /** How the coming decodes turn out; when it has run out they succeed. */
    var outcomes: seq<bool>
    /** Every batch handed to the context. */
    ghost var history: seq<seq<Row>>

    constructor (capacity: nat, maxSeqLen: nat, model: Model, outcomes: seq<bool>)
      ensures this.capacity == capacity && this.maxSeqLen == maxSeqLen && this.model == model
              && this.outcomes == outcomes
      ensures nCur == 0 && batch == [] && kv == [] && history == [] && InStep()
    {
      this.capacity, this.maxSeqLen, this.model, this.outcomes := capacity, maxSeqLen, model, outcomes;
      nCur, batch, kv, history := 0, [], [], [];
    }

    /** Positions 0 to `nCur - 1` are in the cache, each once and in order. */
    predicate InStep()
      reads this
    {
      InOrder(kv, nCur)
    }

    /** The row that `step` samples exists, and its logits were asked for. */
    predicate CanSample()
      reads this
    {
      batch != [] && batch[|batch| - 1].logits
    }

    function Tokens(): seq<Token>
      reads this
    {
      TokensOf(kv)
    }

    predicate AllSucceed()
      reads this
    {
      forall i :: 0 <= i < |outcomes| ==> outcomes[i]
    }

    /** `LlamaBatch::add` */
    method Add(row: Row) returns (ok: bool)
      modifies `batch
      ensures ok <==> |old(batch)| < capacity
      ensures batch == if ok then old(batch) + [row] else old(batch)
    {
      ok := |batch| < capacity;
      if ok {
        batch := batch + [row];
      }
    }

    /** `decode`: all rows enter the cache, or none does. */
    method Decode() returns (ok: bool)
      modifies `kv, `outcomes, `history
      ensures ok <==> old(outcomes) == [] || old(outcomes)[0]
      ensures outcomes == if old(outcomes) == [] then [] else old(outcomes)[1..]
      ensures kv == if ok then old(kv) + PlacedRows(batch) else old(kv)
      ensures history == old(history) + [batch]
    {
      ok := outcomes == [] || outcomes[0];
      outcomes := if outcomes == [] then [] else outcomes[1..];
      history := history + [batch];
      if ok {
        kv := kv + PlacedRows(batch);
      }
    }

    method ClearKv()
      modifies `kv, `nCur
      ensures kv == [] && nCur == 0 && InStep()
    {
      kv := [];
      nCur := 0;
    }

    /** The inner loop of `prefill`: one chunk into the batch. The batch never runs out of room. */
    method FillBatch(tokens: seq<Token>, start: nat, i: nat, end: nat)
      requires i < end <= |tokens| && end - i <= capacity
      modifies `batch
      ensures batch == Rows(tokens, start, i, end)
    {
      batch := [];
      var j := 0;
      while i + j < end
        invariant i + j <= end && batch == Rows(tokens, start, i, i + j)
      {
        var last := end == |tokens| && i + j == |tokens| - 1;
        var ok := Add(Row(tokens[i + j], start + i + j, last));
        assert ok;
        j := j + 1;
      }
    }

    /** One round of the outer loop of `prefill`. */
    method DecodeChunk(tokens: seq<Token>, start: nat, i: nat, end: nat) returns (ok: bool)
      requires i < end <= |tokens| && end - i <= capacity
      modifies `batch, `kv, `outcomes, `history
      ensures batch == Rows(tokens, start, i, end) && history == old(history) + [batch]
      ensures kv == if ok then old(kv) + PlacedRows(batch) else old(kv)
      ensures ok <==> old(outcomes) == [] || old(outcomes)[0]
      ensures outcomes == Unused(old(outcomes), 1)
      ensures old(AllSucceed()) ==> AllSucceed() && ok
    {
      FillBatch(tokens, start, i, end);
      ok := Decode();
    }

    method Prefill(tokens: seq<Token>) returns (r: Result<nat, Failure>)
      requires capacity > 0
      modifies this
      ensures r == Err(EmptyPrompt) <==> tokens == []
      ensures r == Err(ExceedsContext) <==> tokens != [] && old(nCur) + |tokens| >= maxSeqLen
      ensures r.Ok? ==> nCur == r.value == old(nCur) + |tokens| && kv == old(kv) + Place(tokens, old(nCur))
      ensures r.Ok? ==> history == old(history) + Batches(tokens, old(nCur), capacity, 0) && CanSample()
      ensures r.Err? ==> nCur == old(nCur)
      ensures r.Err? && r != Err(DecodeFailed) ==> kv == old(kv) && history == old(history) && outcomes == old(outcomes)
      ensures r == Err(DecodeFailed) ==>
                StoppedAt(old(kv), kv, tokens, old(nCur), capacity, old(outcomes), |history| - |old(history)| - 1)
      ensures r == Err(DecodeFailed) && old(InStep()) ==> (InStep() <==> !old(outcomes)[0])
      ensures r != Err(BatchFull)
      ensures old(AllSucceed()) ==> AllSucceed() && r != Err(DecodeFailed)
    {
      hide Batches, Place, InOrder, StoppedAt;
      if tokens == [] {
        return Err(EmptyPrompt);
      }
      if nCur + |tokens| >= maxSeqLen {
        return Err(ExceedsContext);
      }
      ghost var kv0, start, outcomes0, history0 := kv, nCur, outcomes, |history|;
      var ok := DecodeChunks(tokens);
      if !ok {
        if old(InStep()) { StoppedInStep(kv0, kv, tokens, start, capacity, outcomes0, |history| - history0 - 1); }
        return Err(DecodeFailed);
      }
      nCur := nCur + |tokens|;
      return Ok(nCur);
    }

    /** The outer loop of `prefill`. */
    method DecodeChunks(tokens: seq<Token>) returns (ok: bool)
      requires capacity > 0 && tokens != []
      modifies `batch, `kv, `outcomes, `history
      ensures ok ==> kv == old(kv) + Place(tokens, nCur) && CanSample()
      ensures ok ==> history == old(history) + Batches(tokens, nCur, capacity, 0)
      ensures !ok ==> StoppedAt(old(kv), kv, tokens, nCur, capacity, old(outcomes), |history| - |old(history)| - 1)
      ensures old(AllSucceed()) ==> AllSucceed() && ok
    {
      hide Rows, Batches, Place, PlacedRows, Prefilling, StoppedAt, Unused;
      var total := |tokens|;
      ghost var kv0, history0, outcomes0 := kv, history, outcomes;
      ghost var m: nat := 0;
      var i := 0;
      NothingPrefilled(kv, tokens, nCur, capacity, outcomes);
      while i < total
        invariant i <= total
        invariant Prefilling(kv0, kv, tokens, nCur, capacity, outcomes0, outcomes, i, m) && |history| == |history0| + m
        invariant history + Batches(tokens, nCur, capacity, i) == history0 + Batches(tokens, nCur, capacity, 0)
        invariant i == total ==> CanSample()
        invariant old(AllSucceed()) ==> AllSucceed()
      {
        var end := ChunkEnd(i, capacity, total);
        ghost var kvBefore, historyBefore, outcomesBefore := kv, history, outcomes;
        ok := DecodeChunk(tokens, nCur, i, end);
        if !ok {
          StopsThere(kv0, kv, tokens, nCur, capacity, outcomes0, outcomesBefore, i, m);
          return;
        }
        ChunkPrefilled(kv0, kvBefore, tokens, nCur, capacity, outcomes0, outcomesBefore, i, m);
        BatchesHead(tokens, nCur, capacity, i);
        LastRow(tokens, nCur, i, end);
        Regroup(historyBefore, batch, Batches(tokens, nCur, capacity, end));
        m := m + 1;
        i := end;
      }
      AllPrefilled(kv0, kv, tokens, nCur, capacity, outcomes0, outcomes, m);
      NoBatches(tokens, nCur, capacity);
      ok := true;
    }

    /** `step`: samples the last row of the batch. Its logits must be there. */
    method Step() returns (token: Option<Token>)
      requires CanSample()
      ensures token == model(Tokens())
    {
      token := model(Tokens());
    }

    /** The position moves on even when the decode fails. */
    method PushToken(token: Token) returns (r: Result<(), Failure>)
      modifies this
      ensures r == Err(BatchFull) <==> capacity == 0
      ensures r == Err(BatchFull) ==> nCur == old(nCur) && kv == old(kv) && outcomes == old(outcomes)
      ensures r != Err(BatchFull) ==> nCur == old(nCur) + 1 && CanSample()
      ensures r == Ok(()) ==> kv == old(kv) + [Placed(token, old(nCur))]
      ensures r == Err(DecodeFailed) ==> kv == old(kv)
      ensures r == Ok(()) || r == Err(BatchFull) || r == Err(DecodeFailed)
      ensures old(InStep()) ==> (InStep() <==> r != Err(DecodeFailed))
      ensures old(AllSucceed()) ==> AllSucceed() && r != Err(DecodeFailed)
    {
      batch := [];
      var row := Row(token, nCur, true);
      var ok := Add(row);
      if !ok {
        return Err(BatchFull);
      }
      nCur := nCur + 1;
      assert batch == [row] && PlacedRows([row]) == [Placed(token, old(nCur))] by { PlacedOne(row); }
      ok := Decode();
      if !ok {
        return Err(DecodeFailed);
      }
      return Ok(());
    }

    /**
     * `generate_raw`. Every step samples a row whose logits were asked for. When decodes succeed, what
     * is produced is greedy generation from the cache and the prompt, and positions stay in step.
     */
    method GenerateRaw(prompt: seq<Token>, maxTokens: nat) returns (r: Result<seq<Token>, Failure>)
      requires capacity > 0
      modifies this
      ensures r.Ok? <==> prompt != [] && old(nCur) + |prompt| < maxSeqLen && r != Err(DecodeFailed)
      ensures old(AllSucceed()) ==> r != Err(DecodeFailed)
      ensures r.Ok? ==> r.value <= Generate(model, old(Tokens()) + prompt, maxTokens)
      ensures r.Ok? && old(AllSucceed()) ==> r.value == Generate(model, old(Tokens()) + prompt, maxTokens)
      ensures r.Ok? && old(AllSucceed()) && old(InStep()) ==> InStep() && Tokens() == old(Tokens()) + prompt + r.value
    {
      hide Generate, TokensOf, Place, Batches;
      ghost var from := Tokens() + prompt;
      TokensAppend(kv, prompt, nCur);
      PlacesInOrder(prompt, nCur);
      var first := Prefill(prompt);
      if first.Err? {
        assert first.error == EmptyPrompt || first.error == ExceedsContext || first.error == DecodeFailed;
        return Err(first.error);
      }
      var produced: seq<Token> := [];
      var n := 0;
      while n < maxTokens
        invariant n <= maxTokens && CanSample()
        invariant Tokens() == from + produced
        invariant produced + Generate(model, Tokens(), maxTokens - n) == Generate(model, from, maxTokens)
        invariant old(AllSucceed()) ==> AllSucceed()
        invariant old(AllSucceed()) && old(InStep()) ==> InStep()
      {
        var token := Step();
        GenerateHead(model, Tokens(), maxTokens - n);
        if token.None? { break; }
        ghost var more := Generate(model, Tokens() + [token.value], maxTokens - n - 1);
        Regroup(produced, token.value, more);
        Regroup(from, token.value, []);
        assert from + produced + [token.value] == from + (produced + [token.value]);
        produced := produced + [token.value];
        TokensOne(kv, Placed(token.value, nCur));
        var pushed := PushToken(token.value);
        if pushed.Err? { break; }
        n := n + 1;
      }
      GenerateHead(model, Tokens(), maxTokens - n);
      return Ok(produced);
    }
  }

  lemma Regroup<T>(a: seq<T>, t: T, b: seq<T>)
    ensures a + ([t] + b) == a + [t] + b
  {}

  /**
   * Each token is what sampling gives after all before it, and generation stops only where sampling or the
   * count does.
   */
  lemma {:induction false} GenerateIs(model: Model, cached: seq<Token>, n: nat)
    ensures var g := Generate(model, cached, n);
            && |g| <= n && (|g| < n ==> model(cached + g) == None)
            && forall i :: 0 <= i < |g| ==> model(cached + g[..i]) == Some(g[i])
    decreases n
  {
    if n == 0 || model(cached).None? {
      assert cached + [] == cached;
    } else {
      var t := model(cached).value;
      var g := Generate(model, cached + [t], n - 1);
      GenerateIs(model, cached + [t], n - 1);
      assert cached + ([t] + g) == cached + [t] + g;
      forall i | 0 <= i < |[t] + g| ensures model(cached + ([t] + g)[..i]) == Some(([t] + g)[i]) {
        if i == 0 {
          assert cached + ([t] + g)[..0] == cached;
        } else {
          assert cached + ([t] + g)[..i] == cached + [t] + g[..i - 1];
        }
      }
    }
  }

  lemma GenerateHead(model: Model, cached: seq<Token>, n: nat)
    ensures Generate(model, cached, n) ==
            if n == 0 || model(cached).None? then []
            else [model(cached).value] + Generate(model, cached + [model(cached).value], n - 1)
  {}

  lemma NoBatches(tokens: seq<Token>, start: nat, chunk: nat)
    requires chunk > 0
    ensures Batches(tokens, start, chunk, |tokens|) == []
  {}

  lemma BatchesHead(tokens: seq<Token>, start: nat, chunk: nat, i: nat)
    requires chunk > 0 && i < |tokens|
    ensures var end := ChunkEnd(i, chunk, |tokens|);
            Batches(tokens, start, chunk, i) == [Rows(tokens, start, i, end)] + Batches(tokens, start, chunk, end)
  {}

  lemma LastRow(tokens: seq<Token>, start: nat, i: nat, end: nat)
    requires i < end <= |tokens|
    ensures var rows := Rows(tokens, start, i, end); rows[|rows| - 1].logits <==> end == |tokens|
  {}

  lemma PlacedOne(row: Row)
    ensures PlacedRows([row]) == [Placed(row.token, row.pos)]
  {
    assert [row][..0] == [];
  }

  /** Placed tokens are the tokens, at consecutive positions. */
  lemma {:induction false} PlacesInOrder(tokens: seq<Token>, start: nat)
    ensures forall i :: 0 <= i < |tokens| ==> Place(tokens, start)[i].pos == start + i
  {
    if tokens != [] { PlacesInOrder(tokens[..|tokens| - 1], start); }
  }

  lemma {:induction false} TokensAppend(ps: seq<Placed>, tokens: seq<Token>, start: nat)
    ensures TokensOf(ps + Place(tokens, start)) == TokensOf(ps) + tokens
  {
    hide TokensOf;
    if tokens == [] {
      assert ps + Place(tokens, start) == ps;
    } else {
      var init := tokens[..|tokens| - 1];
      TokensAppend(ps, init, start);
      var p := Placed(tokens[|tokens| - 1], start + |tokens| - 1);
      assert ps + Place(tokens, start) == ps + Place(init, start) + [p];
      TokensOne(ps + Place(init, start), p);
      assert tokens == init + [p.token];
      hide Place;
    }
  }

  lemma TokensOne(ps: seq<Placed>, p: Placed)
    ensures TokensOf(ps + [p]) == TokensOf(ps) + [p.token]
  {
    assert (ps + [p])[..|ps|] == ps;
  }

  // ---- The batches of a prefill ----

  function Flat(batches: seq<seq<Row>>): seq<Row> {
    if batches == [] then [] else batches[0] + Flat(batches[1..])
  }

  lemma {:induction false} RowsAt(tokens: seq<Token>, start: nat, i: nat, end: nat, k: nat)
    requires i <= k < end <= |tokens|
    ensures Rows(tokens, start, i, end)[k - i] == Row(tokens[k], start + k, k == |tokens| - 1)
    decreases end - i
  {
    if k < end - 1 { RowsAt(tokens, start, i, end - 1, k); }
  }

  /**
   * The batches of a prefill: none is empty or exceeds the capacity; row by row they are the tokens at
   * consecutive positions, each once; and only the last row asks for logits.
   */
  lemma {:induction false} BatchesCover(tokens: seq<Token>, start: nat, chunk: nat, i: nat)
    requires chunk > 0 && i <= |tokens|
    ensures var bs := Batches(tokens, start, chunk, i);
            && (forall b :: 0 <= b < |bs| ==> 0 < |bs[b]| <= chunk)
            && |Flat(bs)| == |tokens| - i
            && forall k :: i <= k < |tokens| ==> Flat(bs)[k - i] == Row(tokens[k], start + k, k == |tokens| - 1)
    decreases |tokens| - i
  {
    hide Rows;
    if i < |tokens| {
      var end := ChunkEnd(i, chunk, |tokens|);
      BatchesHead(tokens, start, chunk, i);
      BatchesCover(tokens, start, chunk, end);
      var bs := Batches(tokens, start, chunk, i);
      assert bs[1..] == Batches(tokens, start, chunk, end);
      forall k | i <= k < |tokens| ensures Flat(bs)[k - i] == Row(tokens[k], start + k, k == |tokens| - 1) {
        if k < end { RowsAt(tokens, start, i, end, k); } else { assert Flat(bs)[k - i] == Flat(bs[1..])[k - end]; }
      }
    }
  }

  // ---- Whole runs ----

  datatype Op = Clear | Fill(tokens: seq<Token>) | Push(token: Token)

  /** What the cache should hold after the operations. */
  function Replay(ops: seq<Op>, cached: seq<Token>, maxSeqLen: nat): seq<Token> {
    if ops == [] then cached
    else
      var next := match ops[0]
                  case Clear => []
                  case Fill(ts) => if ts == [] || |cached| + |ts| >= maxSeqLen then cached else cached + ts
                  case Push(t) => cached + [t];
      Replay(ops[1..], next, maxSeqLen)
  }

  /** One operation does to the cache what replaying it says. */
  method PerformOne(s: Session, op: Op)
    requires s.capacity > 0 && s.InStep() && s.AllSucceed()
    modifies s
    ensures s.InStep() && s.AllSucceed() && s.Tokens() == Replay([op], old(s.Tokens()), s.maxSeqLen)
  {
    hide TokensOf, Place, Batches;
    ReplayOne(op, s.Tokens(), s.maxSeqLen);
    hide Replay;
    match op {
      case Clear =>
        s.ClearKv();
        assert s.Tokens() == [] by { NoTokens(); }
      case Fill(ts) =>
        TokensAppend(s.kv, ts, s.nCur);
        PlacesInOrder(ts, s.nCur);
        var r := s.Prefill(ts);
        assert r.Err? ==> r.error == EmptyPrompt || r.error == ExceedsContext;
      case Push(t) =>
        TokensOne(s.kv, Placed(t, s.nCur));
        var r := s.PushToken(t);
    }
  }

  lemma NoTokens()
    ensures TokensOf([]) == []
  {}

  lemma ReplayOne(op: Op, cached: seq<Token>, maxSeqLen: nat)
    ensures Replay([op], cached, maxSeqLen) ==
            match op
            case Clear => []
            case Fill(ts) => if ts == [] || |cached| + |ts| >= maxSeqLen then cached else cached + ts
            case Push(t) => cached + [t]
  {
    assert [op][1..] == [];
  }

  lemma ReplayHead(ops: seq<Op>, cached: seq<Token>, maxSeqLen: nat)
    requires ops != []
    ensures Replay(ops, cached, maxSeqLen) == Replay(ops[1..], Replay([ops[0]], cached, maxSeqLen), maxSeqLen)
  {
    assert [ops[0]][1..] == [];
  }

  /** Any run of clear, prefill and push whose decodes succeed. */
  method Perform(s: Session, ops: seq<Op>)
    requires s.capacity > 0 && s.InStep() && s.AllSucceed()
    modifies s
    ensures s.InStep() && s.Tokens() == Replay(ops, old(s.Tokens()), s.maxSeqLen)
  {
    hide TokensOf;
    var i := 0;
    while i < |ops|
      invariant i <= |ops| && s.InStep() && s.AllSucceed()
      invariant Replay(ops[i..], s.Tokens(), s.maxSeqLen) == Replay(ops, old(s.Tokens()), s.maxSeqLen)
    {
      assert ops[i..][1..] == ops[i + 1..];
      ReplayHead(ops[i..], s.Tokens(), s.maxSeqLen);
      PerformOne(s, ops[i]);
      i := i + 1;
    }
    assert ops[|ops|..] == [];
  }
}
