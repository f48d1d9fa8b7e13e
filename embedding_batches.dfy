/** The batching loop that CorporAIteService.CalculateEmbeddingsAsync and
    SharePointAIService.CalculateAndUploadEmbeddingsAsync both run: send the
    next `batchSize` lines to the embedding service and upload the result;
    on success move past them and take min(2000, remaining) next; on any
    exception halve the batch size, and give up once halving gives 1.

    `Run` is the sequence of calls the loop makes, as a function of the
    lines, the starting batch size and the answers of the service. */
module EmbeddingBatches {
  import opened Common

  const MaxBatchSize := 2000

  /** One pass through the loop body: the call's sequence number, the lines
      sent, the file name the embeddings were to be uploaded under, and the
      uploaded payload, or None when embedding or uploading threw. */
  datatype Attempt = Attempt(call: nat, batch: seq<string>, fileName: string, uploaded: Option<Bytes>)

  /** The two remote calls of one pass: computing the embeddings of a batch
      (the serialized response, or None when the call throws) and uploading
      them under a file name (false when the upload throws). Both may answer
      differently on every call, so they also receive the call's number. */
  datatype Service = Service(embed: (nat, seq<string>) -> Option<Bytes>,
                             upload: (nat, Bytes, string) -> bool)

  /** One pass's try block: embed, then upload; the uploaded bytes, or None
      when either call threw. */
  function Step(service: Service, call: nat, batch: seq<string>, fileName: string): Option<Bytes>
  {
    match service.embed(call, batch)
    case None => None
    case Some(embeddings) => if service.upload(call, embeddings, fileName) then Some(embeddings) else None
  }

  /** The try block of one pass: embed the batch and, when that answered,
      upload the embeddings under the file name. */
  method TryBatch(service: Service, call: nat, batch: seq<string>, fileName: string) returns (uploaded: Option<Bytes>)
    ensures uploaded == Step(service, call, batch, fileName)
  {
    uploaded := None;
    var embeddings := service.embed(call, batch);
    if embeddings.Some? {
      if service.upload(call, embeddings.value, fileName) {
        uploaded := embeddings;
      }
    }
  }

  /** What holds at the head of every iteration: while lines remain, the
      batch size is between 1 and their number. */
  predicate Ready(lines: seq<string>, size: nat) {
    lines != [] ==> 1 <= size <= |lines|
  }

  /** The calls the loop makes from a state (remaining lines, batch size,
      file-name suffix, number of calls made so far). */
  function Run(lines: seq<string>, size: nat, suffix: nat, call: nat,
               name: nat -> string, service: Service): seq<Attempt>
    requires Ready(lines, size)
    decreases |lines|, size
  {
    if lines == [] then []
    else
      var batch := lines[..size];
      var fileName := name(suffix);
      match Step(service, call, batch, fileName)
      case Some(bytes) =>
        var rest := lines[size..];
        [Attempt(call, batch, fileName, Some(bytes))]
        + Run(rest, Min(MaxBatchSize, |rest|), suffix + 1, call + 1, name, service)
      case None =>
        var half := Max(1, size / 2);
        [Attempt(call, batch, fileName, None)]
        + (if half == 1 then [] else Run(lines, half, suffix, call + 1, name, service))
  }

  /** The `while (lines.Any())` loop of `CalculateEmbeddingsAsync`, batch
      `suffix` being uploaded under `name(suffix)`. */
  method EmbedInBatches(lines: seq<string>, name: nat -> string, service: Service) returns (calls: seq<Attempt>)
    ensures calls == Run(lines, |lines|, 1, 0, name, service)
  {
    var remaining := lines;
    var batchSize: nat := |lines|;
    var suffix: nat := 1;
    var call: nat := 0;
    calls := [];
    ghost var total := Run(remaining, batchSize, suffix, call, name, service);
    assert total == calls + total;
    while remaining != []
      invariant Ready(remaining, batchSize)
      invariant call == |calls|
      invariant total == calls + Run(remaining, batchSize, suffix, call, name, service)
      decreases |remaining|, batchSize
    {
      var currentBatch := remaining[..batchSize];
      var fileNameWithSuffix := name(suffix);
      var uploaded := TryBatch(service, call, currentBatch, fileNameWithSuffix);
      var a := Attempt(call, currentBatch, fileNameWithSuffix, uploaded);
      if uploaded.Some? {
        AdvanceOnSuccess(total, calls, remaining, batchSize, suffix, call, name, service, a);
        calls := calls + [a];
        call := call + 1;
        remaining := remaining[batchSize..];
        suffix := suffix + 1;
        batchSize := Min(MaxBatchSize, |remaining|);
      } else {
        AdvanceOnFailure(total, calls, remaining, batchSize, suffix, call, name, service, a);
        calls := calls + [a];
        call := call + 1;
        batchSize := Max(1, batchSize / 2);
        if batchSize == 1 {
          break;
        }
      }
    }
    assert total == calls by {
      if remaining == [] {
        assert calls + [] == calls;
      }
    }
  }

  // ---------------------------------------------------------------------
  // Views of a sequence of calls

  predicate Succeeded(a: Attempt) {
    a.uploaded.Some?
  }

  /** The lines of the successful calls, concatenated in order. */
  function Sent(t: seq<Attempt>): seq<string>
  {
    if t == [] then [] else (if Succeeded(t[0]) then t[0].batch else []) + Sent(t[1..])
  }

  /** The successful calls, in order. */
  function Successes(t: seq<Attempt>): (s: seq<Attempt>)
    ensures |s| <= |t|
    ensures forall k :: 0 <= k < |s| ==> Succeeded(s[k])
  {
    if t == [] then [] else (if Succeeded(t[0]) then [t[0]] else []) + Successes(t[1..])
  }

  lemma {:induction false} SentAppend(x: seq<Attempt>, y: seq<Attempt>)
    ensures Sent(x + y) == Sent(x) + Sent(y)
  {
    if x == [] {
      assert x + y == y;
    } else {
      assert (x + y)[1..] == x[1..] + y;
      SentAppend(x[1..], y);
    }
  }

  lemma {:induction false} SuccessesAppend(x: seq<Attempt>, y: seq<Attempt>)
    ensures Successes(x + y) == Successes(x) + Successes(y)
  {
    if x == [] {
      assert x + y == y;
    } else {
      assert (x + y)[1..] == x[1..] + y;
      SuccessesAppend(x[1..], y);
    }
  }

  /** Every call sends between 1 and `bound` lines. */
  predicate BatchesWithin(t: seq<Attempt>, bound: int) {
    forall k :: 0 <= k < |t| ==> 1 <= |t[k].batch| <= bound
  }

  /** The calls were made under name(suffix), name(suffix + 1), ... */
  predicate NamedFrom(t: seq<Attempt>, name: nat -> string, suffix: nat) {
    forall j :: 0 <= j < |t| ==> t[j].fileName == name(suffix + j)
  }

  lemma SentCons(a: Attempt, t: seq<Attempt>)
    ensures Sent([a] + t) == (if Succeeded(a) then a.batch else []) + Sent(t)
  {
    assert ([a] + t)[1..] == t;
  }

  // ---------------------------------------------------------------------
  // Properties of Run

  /** One step of Run: the first call, then the run from the state the loop
      body leaves behind (none when a failure halves the size down to 1). */
  lemma RunUnfold(lines: seq<string>, size: nat, suffix: nat, call: nat,
                  name: nat -> string, service: Service)
    requires Ready(lines, size) && lines != []
    ensures var t := Run(lines, size, suffix, call, name, service);
      var o := Step(service, call, lines[..size], name(suffix));
      && |t| >= 1
      && t[0] == Attempt(call, lines[..size], name(suffix), o)
      && (o.Some? ==> t[1..] == Run(lines[size..], Min(MaxBatchSize, |lines| - size), suffix + 1, call + 1, name, service))
      && (o.None? && size <= 3 ==> |t| == 1)
      && (o.None? && size > 3 ==> t[1..] == Run(lines, size / 2, suffix, call + 1, name, service))
  {
  }

  /** The loops' bookkeeping: when the calls made so far followed by the run
      from the current state are the whole run, a successful pass `a` moves
      its call from the second part to the first, and the run goes on past
      the lines it sent. */
  lemma AdvanceOnSuccess(total: seq<Attempt>, done: seq<Attempt>, lines: seq<string>, size: nat, suffix: nat,
                         call: nat, name: nat -> string, service: Service, a: Attempt)
    requires Ready(lines, size) && lines != []
    requires total == done + Run(lines, size, suffix, call, name, service)
    requires a == Attempt(call, lines[..size], name(suffix), Step(service, call, lines[..size], name(suffix)))
    requires Succeeded(a)
    ensures total == (done + [a]) + Run(lines[size..], Min(MaxBatchSize, |lines[size..]|), suffix + 1, call + 1, name, service)
  {
    var t := Run(lines, size, suffix, call, name, service);
    RunUnfold(lines, size, suffix, call, name, service);
    assert t == [a] + t[1..];
    AppendAssociative(done, [a], t[1..]);
  }

  /** The same for a failed pass `a`: the run ends when halving gives 1, and
      otherwise goes on over the same lines with the halved size. */
  lemma AdvanceOnFailure(total: seq<Attempt>, done: seq<Attempt>, lines: seq<string>, size: nat, suffix: nat,
                         call: nat, name: nat -> string, service: Service, a: Attempt)
    requires Ready(lines, size) && lines != []
    requires total == done + Run(lines, size, suffix, call, name, service)
    requires a == Attempt(call, lines[..size], name(suffix), Step(service, call, lines[..size], name(suffix)))
    requires !Succeeded(a)
    ensures Max(1, size / 2) == 1 ==> total == done + [a]
    ensures Max(1, size / 2) != 1 ==> total == (done + [a]) + Run(lines, Max(1, size / 2), suffix, call + 1, name, service)
  {
    var t := Run(lines, size, suffix, call, name, service);
    RunUnfold(lines, size, suffix, call, name, service);
    assert t == [a] + t[1..];
    AppendAssociative(done, [a], t[1..]);
    assert done + [a] + [] == done + [a];
  }

  /** The calls are numbered call, call + 1, ... */
  predicate NumberedFrom(t: seq<Attempt>, call: nat) {
    forall k :: 0 <= k < |t| ==> t[k].call == call + k
  }

  lemma NumberedCons(a: Attempt, t: seq<Attempt>, call: nat)
    requires a.call == call && NumberedFrom(t, call + 1)
    ensures NumberedFrom([a] + t, call)
  {
    forall k | 1 <= k < |[a] + t| ensures ([a] + t)[k].call == call + k {
      assert ([a] + t)[k] == t[k - 1];
    }
  }

  /** Calls are numbered consecutively from `call`; a non-empty input makes
      at least one call, and the first call sends `size` lines. */
  lemma {:induction false} RunShape(lines: seq<string>, size: nat, suffix: nat, call: nat,
                                    name: nat -> string, service: Service)
    requires Ready(lines, size)
    ensures var t := Run(lines, size, suffix, call, name, service);
      (lines == [] <==> t == [])
      && (t != [] ==> |t[0].batch| == size && t[0].fileName == name(suffix))
      && NumberedFrom(t, call)
    decreases |lines|, size
  {
    var t := Run(lines, size, suffix, call, name, service);
    if lines == [] {
      assert t == [];
    } else {
      RunUnfold(lines, size, suffix, call, name, service);
      assert t == [t[0]] + t[1..];
      if Succeeded(t[0]) {
        RunShape(lines[size..], Min(MaxBatchSize, |lines| - size), suffix + 1, call + 1, name, service);
      } else if size > 3 {
        RunShape(lines, size / 2, suffix, call + 1, name, service);
      } else {
        assert t[1..] == [];
      }
      NumberedCons(t[0], t[1..], call);
    }
  }

  /** Every call sends between 1 and max(size, 2000) lines. */
  lemma {:induction false} RunBatchBounds(lines: seq<string>, size: nat, suffix: nat, call: nat,
                                          name: nat -> string, service: Service)
    requires Ready(lines, size)
    ensures BatchesWithin(Run(lines, size, suffix, call, name, service), Max(size, MaxBatchSize))
    decreases |lines|, size
  {
    if lines != [] {
      var t := Run(lines, size, suffix, call, name, service);
      RunUnfold(lines, size, suffix, call, name, service);
      if Succeeded(t[0]) {
        RunBatchBounds(lines[size..], Min(MaxBatchSize, |lines| - size), suffix + 1, call + 1, name, service);
      } else if size > 3 {
        RunBatchBounds(lines, size / 2, suffix, call + 1, name, service);
      }
      forall k | 1 <= k < |t| ensures 1 <= |t[k].batch| <= Max(size, MaxBatchSize) {
        assert t[k] == t[1..][k - 1];
      }
    }
  }

  /** Call k of `t` sends the lines of `lines` that start where the lines
      sent by the successful calls before it end. */
  predicate SentFrom(lines: seq<string>, t: seq<Attempt>, k: nat)
    requires k < |t|
  {
    var p := |Sent(t[..k])|;
    p + |t[k].batch| <= |lines| && t[k].batch == lines[p..p + |t[k].batch|]
    && Sent(t[..k]) == lines[..p]
  }

  lemma SentFromAfterSuccess(lines: seq<string>, size: nat, a: Attempt, t: seq<Attempt>, k: nat)
    requires size <= |lines| && Succeeded(a) && a.batch == lines[..size]
    requires 1 <= k <= |t| && SentFrom(lines[size..], t, k - 1)
    ensures SentFrom(lines, [a] + t, k)
  {
    var rest := lines[size..];
    assert ([a] + t)[..k] == [a] + t[..k - 1];
    assert ([a] + t)[k] == t[k - 1];
    SentCons(a, t[..k - 1]);
    var p := |Sent(t[..k - 1])|;
    var m := |t[k - 1].batch|;
    assert lines[..size + p] == lines[..size] + rest[..p];
    assert rest[p..p + m] == lines[size + p..size + p + m];
  }

  lemma SentFromAfterFailure(lines: seq<string>, a: Attempt, t: seq<Attempt>, k: nat)
    requires !Succeeded(a)
    requires 1 <= k <= |t| && SentFrom(lines, t, k - 1)
    ensures SentFrom(lines, [a] + t, k)
  {
    assert ([a] + t)[..k] == [a] + t[..k - 1];
    assert ([a] + t)[k] == t[k - 1];
    SentCons(a, t[..k - 1]);
  }

  /** Call k sends the lines that start where the lines sent by the
      successful calls before it end: only a success advances the input. */
  lemma {:induction false} RunPosition(lines: seq<string>, size: nat, suffix: nat, call: nat,
                                       name: nat -> string, service: Service, k: nat)
    requires Ready(lines, size)
    requires k < |Run(lines, size, suffix, call, name, service)|
    ensures SentFrom(lines, Run(lines, size, suffix, call, name, service), k)
    decreases |lines|, size
  {
    var t := Run(lines, size, suffix, call, name, service);
    if k == 0 {
      assert t[..0] == [];
    } else {
      RunUnfold(lines, size, suffix, call, name, service);
      assert t == [t[0]] + t[1..];
      if Succeeded(t[0]) {
        var rest := lines[size..];
        RunPosition(rest, Min(MaxBatchSize, |rest|), suffix + 1, call + 1, name, service, k - 1);
        SentFromAfterSuccess(lines, size, t[0], t[1..], k);
      } else {
        RunPosition(lines, size / 2, suffix, call + 1, name, service, k - 1);
        SentFromAfterFailure(lines, t[0], t[1..], k);
      }
    }
  }

  /** The lines sent by successful calls, concatenated, are an in-order
      prefix of the input. */
  lemma RunSentIsPrefix(lines: seq<string>, size: nat, suffix: nat, call: nat,
                        name: nat -> string, service: Service)
    requires Ready(lines, size)
    ensures var t := Run(lines, size, suffix, call, name, service);
      |Sent(t)| <= |lines| && Sent(t) == lines[..|Sent(t)|]
  {
    var t := Run(lines, size, suffix, call, name, service);
    if t != [] {
      var k := |t| - 1;
      RunPosition(lines, size, suffix, call, name, service, k);
      assert SentFrom(lines, t, k);
      assert t == t[..k] + [t[k]];
      SentAppend(t[..k], [t[k]]);
      var p := |Sent(t[..k])|;
      if Succeeded(t[k]) {
        assert Sent([t[k]]) == t[k].batch;
        assert lines[..p + |t[k].batch|] == lines[..p] + lines[p..p + |t[k].batch|];
      } else {
        assert Sent([t[k]]) == [];
      }
    }
  }

  /** How a sequence of calls over `lines` ended: every line was sent, or
      the last call failed with a batch of at most 3 lines (so that halving
      gave 1) and lines remain. */
  predicate Ended(lines: seq<string>, t: seq<Attempt>) {
    Sent(t) == lines
    || (t != [] && !Succeeded(t[|t| - 1]) && |t[|t| - 1].batch| <= 3 && |Sent(t)| < |lines|)
  }

  lemma EndedAfterSuccess(lines: seq<string>, size: nat, a: Attempt, t: seq<Attempt>)
    requires size <= |lines| && Succeeded(a) && a.batch == lines[..size]
    requires Ended(lines[size..], t)
    ensures Ended(lines, [a] + t)
  {
    SentCons(a, t);
    assert lines == lines[..size] + lines[size..];
    if t != [] {
      assert ([a] + t)[|t|] == t[|t| - 1];
    }
  }

  lemma EndedAfterFailure(lines: seq<string>, a: Attempt, t: seq<Attempt>)
    requires lines != [] && !Succeeded(a)
    requires (t == [] && |a.batch| <= 3) || Ended(lines, t)
    ensures Ended(lines, [a] + t)
  {
    SentCons(a, t);
    if t != [] {
      assert ([a] + t)[|t|] == t[|t| - 1];
    } else {
      assert [a] + t == [a];
    }
  }

  /** How a run ends: every line was sent, or the last call failed with a
      batch of at most 3 lines (so that halving gave 1) and lines remain. */
  lemma {:induction false} RunEnd(lines: seq<string>, size: nat, suffix: nat, call: nat,
                                  name: nat -> string, service: Service)
    requires Ready(lines, size)
    ensures Ended(lines, Run(lines, size, suffix, call, name, service))
    decreases |lines|, size
  {
    var t := Run(lines, size, suffix, call, name, service);
    if lines == [] {
      assert t == [];
    } else {
      RunUnfold(lines, size, suffix, call, name, service);
      assert t == [t[0]] + t[1..];
      if Succeeded(t[0]) {
        RunEnd(lines[size..], Min(MaxBatchSize, |lines| - size), suffix + 1, call + 1, name, service);
        EndedAfterSuccess(lines, size, t[0], t[1..]);
      } else {
        if size > 3 {
          RunEnd(lines, size / 2, suffix, call + 1, name, service);
        }
        EndedAfterFailure(lines, t[0], t[1..]);
      }
    }
  }

  /** What follows call k of `t`, a run over `lines`: after a failure, the
      first half of the same lines under the same file name (a failure with
      3 or fewer lines is the last call); after a success, min(2000,
      remaining) lines. */
  predicate StepsFrom(lines: seq<string>, t: seq<Attempt>, k: nat)
    requires k < |t|
  {
    && (!Succeeded(t[k]) ==>
          (k + 1 < |t| <==> |t[k].batch| >= 4)
          && (k + 1 < |t| ==> t[k + 1].batch == t[k].batch[..|t[k].batch| / 2]
                              && t[k + 1].fileName == t[k].fileName))
    && (Succeeded(t[k]) && k + 1 < |t| ==>
          |t[k + 1].batch| == Min(MaxBatchSize, |lines| - |Sent(t[..k + 1])|))
  }

  lemma StepsFromAfterSuccess(lines: seq<string>, size: nat, a: Attempt, t: seq<Attempt>, k: nat)
    requires size <= |lines| && Succeeded(a) && |a.batch| == size
    requires 1 <= k <= |t| && StepsFrom(lines[size..], t, k - 1)
    ensures StepsFrom(lines, [a] + t, k)
  {
    if k + 1 < |[a] + t| {
      assert ([a] + t)[..k + 1] == [a] + t[..k];
      SentCons(a, t[..k]);
    }
  }

  lemma StepsFromAfterFailure(lines: seq<string>, a: Attempt, t: seq<Attempt>, k: nat)
    requires !Succeeded(a)
    requires 1 <= k <= |t| && StepsFrom(lines, t, k - 1)
    ensures StepsFrom(lines, [a] + t, k)
  {
    if k + 1 < |[a] + t| {
      assert ([a] + t)[..k + 1] == [a] + t[..k];
      SentCons(a, t[..k]);
    }
  }

  lemma StepsFromFirstSuccess(lines: seq<string>, size: nat, a: Attempt, t: seq<Attempt>)
    requires size <= |lines| && Succeeded(a) && |a.batch| == size
    requires t != [] ==> |t[0].batch| == Min(MaxBatchSize, |lines| - size)
    ensures StepsFrom(lines, [a] + t, 0)
  {
    assert ([a] + t)[..1] == [a] + [];
    SentCons(a, []);
  }

  lemma StepsFromFirstFailure(lines: seq<string>, size: nat, a: Attempt, t: seq<Attempt>)
    requires size <= |lines| && !Succeeded(a) && a.batch == lines[..size]
    requires t != [] <==> size >= 4
    requires t != [] ==> t[0].batch == lines[..size / 2] && t[0].fileName == a.fileName
    ensures StepsFrom(lines, [a] + t, 0)
  {
    if t != [] {
      assert lines[..size / 2] == lines[..size][..size / 2];
    }
  }

  /** What follows each call of a run. */
  lemma {:induction false} RunStep(lines: seq<string>, size: nat, suffix: nat, call: nat,
                                   name: nat -> string, service: Service, k: nat)
    requires Ready(lines, size)
    requires k < |Run(lines, size, suffix, call, name, service)|
    ensures StepsFrom(lines, Run(lines, size, suffix, call, name, service), k)
    decreases |lines|, size
  {
    var t := Run(lines, size, suffix, call, name, service);
    RunUnfold(lines, size, suffix, call, name, service);
    var a, t' := t[0], t[1..];
    assert t == [a] + t';
    if Succeeded(a) {
      var rest := lines[size..];
      var size' := Min(MaxBatchSize, |rest|);
      if k == 0 {
        RunShape(rest, size', suffix + 1, call + 1, name, service);
        StepsFromFirstSuccess(lines, size, a, t');
      } else {
        RunStep(rest, size', suffix + 1, call + 1, name, service, k - 1);
        StepsFromAfterSuccess(lines, size, a, t', k);
      }
    } else if size > 3 {
      if k == 0 {
        RunUnfold(lines, size / 2, suffix, call + 1, name, service);
        StepsFromFirstFailure(lines, size, a, t');
      } else {
        RunStep(lines, size / 2, suffix, call + 1, name, service, k - 1);
        StepsFromAfterFailure(lines, a, t', k);
      }
    } else {
      StepsFromFirstFailure(lines, size, a, t');
    }
  }

  lemma NamedAfterSuccess(a: Attempt, t: seq<Attempt>, name: nat -> string, suffix: nat)
    requires Succeeded(a) && a.fileName == name(suffix)
    requires NamedFrom(Successes(t), name, suffix + 1)
    ensures NamedFrom(Successes([a] + t), name, suffix)
  {
    SuccessesAppend([a], t);
    assert [a][1..] == [];
    var s' := Successes(t);
    assert Successes([a] + t) == [a] + s';
    forall j | 1 <= j < |Successes([a] + t)| ensures Successes([a] + t)[j].fileName == name(suffix + j) {
      assert s'[j - 1].fileName == name(suffix + 1 + (j - 1));
    }
  }

  lemma NamedAfterFailure(a: Attempt, t: seq<Attempt>, name: nat -> string, suffix: nat)
    requires !Succeeded(a)
    requires NamedFrom(Successes(t), name, suffix)
    ensures NamedFrom(Successes([a] + t), name, suffix)
  {
    SuccessesAppend([a], t);
    assert [a][1..] == [];
  }

  /** The successful calls upload under name(suffix), name(suffix + 1), ...
      in order: the suffix grows by one per success only. */
  lemma {:induction false} RunNames(lines: seq<string>, size: nat, suffix: nat, call: nat,
                                    name: nat -> string, service: Service)
    requires Ready(lines, size)
    ensures NamedFrom(Successes(Run(lines, size, suffix, call, name, service)), name, suffix)
    decreases |lines|, size
  {
    var t := Run(lines, size, suffix, call, name, service);
    if lines != [] {
      RunUnfold(lines, size, suffix, call, name, service);
      assert t == [t[0]] + t[1..];
      if Succeeded(t[0]) {
        RunNames(lines[size..], Min(MaxBatchSize, |lines| - size), suffix + 1, call + 1, name, service);
        NamedAfterSuccess(t[0], t[1..], name, suffix);
      } else {
        if size > 3 {
          RunNames(lines, size / 2, suffix, call + 1, name, service);
        }
        NamedAfterFailure(t[0], t[1..], name, suffix);
      }
    } else {
      assert t == [];
    }
  }
}
