/** The pipelined embed loop: batch N+1 is submitted before batch N is awaited. */
module EmbedLoop {
  import opened Wrappers
  import opened IndexRun
  import opened Checkpoints

  // ---------- the embed worker ----------

  function Texts(items: seq<Item>): seq<string> {
    seq(|items|, k requires 0 <= k < |items| => items[k].chunk.body)
  }

  function Embeddings(env: Env, texts: seq<string>): seq<Vector> {
    seq(|texts|, k requires 0 <= k < |texts| => env.embed(texts[k]))
  }

  /** A reply of the right length holds the embeddings, in order. */
  predicate Answers(env: Env, texts: seq<string>, reply: Option<seq<Vector>>) {
    reply.Some? && |reply.value| == |texts| ==> reply.value == Embeddings(env, texts)
  }

  class Engine {
    const remote: bool
    var submitted: seq<seq<string>>

    /** Queues a batch; the receiver is its position in the worker's queue. */
    method Submit(texts: seq<string>) returns (rx: Option<nat>)
      modifies this
      ensures rx.Some? ==> submitted == old(submitted) + [texts] && rx.value == |old(submitted)|
      ensures rx.None? ==> submitted == old(submitted)
    {
      var ok := Oracle();
      if !ok {
        return None;
      }
      rx := Some(|submitted|);
      submitted := submitted + [texts];
    }

    method Await(env: Env, rx: nat) returns (reply: Option<seq<Vector>>)
      requires rx < |submitted|
      ensures Answers(env, submitted[rx], reply)
    {
      reply := EmbedTexts(env, submitted[rx]);
    }

    method EmbedTexts(env: Env, texts: seq<string>) returns (reply: Option<seq<Vector>>)
      ensures Answers(env, texts, reply)
    {
      var ok := Oracle();
      var short := Oracle();
      if !ok {
        return None;
      }
      if short && |texts| > 0 {
        return Some([]);
      }
      return Some(Embeddings(env, texts));
    }
  }

  // ---------- batches ----------

  function End(i: nat, batch: nat, n: nat): nat {
    if i + batch < n then i + batch else n
  }

  /** The batches a submit-then-await loop would send from item i on. */
  function Batches(texts: seq<string>, batch: nat, i: nat): seq<seq<string>>
    requires batch > 0
    decreases |texts| - i
  {
    if i >= |texts| then []
    else [texts[i..End(i, batch, |texts|)]] + Batches(texts, batch, End(i, batch, |texts|))
  }

  function Joined(batches: seq<seq<string>>): seq<string> {
    if |batches| == 0 then [] else batches[0] + Joined(batches[1..])
  }

  /** The batches are a cut of the texts: each text goes out once, in order. */
  lemma {:induction false} BatchesCut(texts: seq<string>, batch: nat, i: nat)
    requires batch > 0 && i <= |texts|
    ensures Joined(Batches(texts, batch, i)) == texts[i..]
    decreases |texts| - i
  {
    if i < |texts| {
      var j := End(i, batch, |texts|);
      BatchesCut(texts, batch, j);
      assert texts[i..] == texts[i..j] + texts[j..];
    }
  }

  /** Every batch holds `batch` texts, but for the last, which holds the rest. */
  lemma {:induction false} BatchesAreFull(texts: seq<string>, batch: nat, i: nat, k: nat)
    requires batch > 0 && k < |Batches(texts, batch, i)|
    ensures var batches := Batches(texts, batch, i);
      && |batches[k]| <= batch && (k + 1 < |batches| ==> |batches[k]| == batch)
      && (k + 1 == |batches| ==> |batches[k]| > 0)
    decreases |texts| - i
  {
    if k > 0 {
      BatchesAreFull(texts, batch, End(i, batch, |texts|), k - 1);
    }
  }

  /** What has been submitted since `base` is what the sequential loop sends for
    * the items before `reach`. */
  predicate Sent(submitted: seq<seq<string>>, base: seq<seq<string>>, texts: seq<string>, batch: nat, reach: nat)
    requires batch > 0
  {
    reach <= |texts| && submitted + Batches(texts, batch, reach) == base + Batches(texts, batch, 0)
  }

  lemma SentMore(submitted: seq<seq<string>>, base: seq<seq<string>>, texts: seq<string>, batch: nat, reach: nat)
    requires batch > 0 && Sent(submitted, base, texts, batch, reach) && reach < |texts|
    ensures var next := End(reach, batch, |texts|);
      Sent(submitted + [texts[reach..next]], base, texts, batch, next)
  {
    var next := End(reach, batch, |texts|);
    assert submitted + ([texts[reach..next]] + Batches(texts, batch, next))
        == submitted + [texts[reach..next]] + Batches(texts, batch, next);
  }

  /** The state of the pipeline at the head of the loop: the receiver held, if
    * any, belongs to the batch at `cursor`. */
  predicate Pipeline(remote: bool, submitted: seq<seq<string>>, base: seq<seq<string>>, texts: seq<string>,
                     batch: nat, cursor: nat, rx: Option<nat>)
    requires batch > 0 && cursor <= |texts|
  {
    if remote then rx.None? && submitted == base
    else if rx.None? then cursor in {0, |texts|} && Sent(submitted, base, texts, batch, cursor)
    else
      && 0 < cursor < |texts|
      && rx.value + 1 == |submitted| && submitted[rx.value] == texts[cursor..End(cursor, batch, |texts|)]
      && Sent(submitted, base, texts, batch, End(cursor, batch, |texts|))
  }

  /** At any point, submissions are a prefix of those of the sequential loop. */
  predicate SentUpTo(remote: bool, submitted: seq<seq<string>>, base: seq<seq<string>>, texts: seq<string>,
                     batch: nat, reach: nat)
    requires batch > 0
  {
    if remote then submitted == base else Sent(submitted, base, texts, batch, reach)
  }

  /** One turn of the pipeline: submit the batch at `cursor` unless that is done
    * already, submit the one behind it, and wait for the first. */
  method EmbedBatch(env: Env, engine: Engine, texts: seq<string>, batch: nat, cursor: nat, rx: Option<nat>,
                    ghost base: seq<seq<string>>)
    returns (embs: Option<seq<Vector>>, next: Option<nat>, ghost reach: nat)
    requires batch > 0 && cursor < |texts|
    requires Pipeline(engine.remote, engine.submitted, base, texts, batch, cursor, rx)
    modifies engine
    ensures var end := End(cursor, batch, |texts|);
      && reach <= End(end, batch, |texts|)
      && SentUpTo(engine.remote, engine.submitted, base, texts, batch, reach)
      && Answers(env, texts[cursor..end], embs)
      && (embs.Some? ==> Pipeline(engine.remote, engine.submitted, base, texts, batch, end, next))
  {
    var n := |texts|;
    var end := End(cursor, batch, n);
    var current := rx;
    next := None;
    reach := if rx.Some? then end else cursor;
    if current.None? && !engine.remote {
      SentMore(engine.submitted, base, texts, batch, cursor);
      current := engine.Submit(texts[cursor..end]);
      if current.None? {
        return None, None, reach;
      }
      reach := end;
    }
    var ahead := End(end, batch, n);
    if ahead > end && !engine.remote {
      ghost var queued := engine.submitted;
      SentMore(engine.submitted, base, texts, batch, end);
      next := engine.Submit(texts[end..ahead]);
      if next.None? {
        return None, None, reach;
      }
      reach := ahead;
      assert engine.submitted[current.value] == queued[current.value];
    }
    if current.Some? {
      embs := engine.Await(env, current.value);
    } else {
      embs := engine.EmbedTexts(env, texts[cursor..end]);
    }
  }
}
