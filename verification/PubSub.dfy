// Pub/Sub acknowledgements: the ids of deliveries wait until the engine reports a committed batch.
module PubSub {
  import opened Prelude

  const CHUNK: nat := 1000

  /** The ack requests issued for a pending list. */
  function Chunks(ids: seq<nat>): seq<seq<nat>> {
    if |ids| <= CHUNK then (if ids == [] then [] else [ids])
    else [ids[..CHUNK]] + Chunks(ids[CHUNK..])
  }

  function Joined(chunks: seq<seq<nat>>): seq<nat> {
    if chunks == [] then [] else chunks[0] + Joined(chunks[1..])
  }

  function IdsOf(chunk: seq<nat>): set<nat> {
    set id | id in chunk
  }

  /** Ids acknowledged when the requests numbered in `lost` fail; `n` numbers the first chunk. */
  function AckedIn(chunks: seq<seq<nat>>, lost: set<nat>, n: nat): set<nat> {
    if chunks == [] then {}
    else (if n in lost then {} else IdsOf(chunks[0])) + AckedIn(chunks[1..], lost, n + 1)
  }

  function AckedOf(pending: seq<nat>, lost: set<nat>): set<nat> {
    AckedIn(Chunks(pending), lost, 0)
  }

  /** The requests cover the pending list in order and none exceeds the service's limit. */
  lemma {:induction false} ChunksCoverPending(ids: seq<nat>)
    ensures Joined(Chunks(ids)) == ids
    ensures forall c :: c in Chunks(ids) ==> 1 <= |c| <= CHUNK
  {
    if |ids| > CHUNK {
      ChunksCoverPending(ids[CHUNK..]);
      assert ids == ids[..CHUNK] + ids[CHUNK..];
    } else if ids != [] {
      assert Joined([ids]) == ids + Joined([]);
    }
  }

  /** Every request but the last carries a thousand ids, the service's limit. */
  lemma {:induction false} RequestsAreFull(ids: seq<nat>)
    ensures forall c :: 0 <= c < |Chunks(ids)| ==> 1 <= |Chunks(ids)[c]| <= 1000
    ensures forall c :: 0 <= c < |Chunks(ids)| - 1 ==> |Chunks(ids)[c]| == 1000
    decreases |ids|
  {
    if |ids| > CHUNK { RequestsAreFull(ids[CHUNK..]); }
  }

  lemma {:induction false} AckedInMembers(chunks: seq<seq<nat>>, lost: set<nat>, n: nat)
    ensures forall id ::
              id in AckedIn(chunks, lost, n) <==> exists c :: 0 <= c < |chunks| && n + c !in lost && id in chunks[c]
  {
    if chunks != [] {
      AckedInMembers(chunks[1..], lost, n + 1);
      forall id ensures id in AckedIn(chunks, lost, n)
             <==> exists c :: 0 <= c < |chunks| && n + c !in lost && id in chunks[c] {
        if c :| 0 <= c < |chunks| && n + c !in lost && id in chunks[c] {
          if c > 0 {
            assert chunks[1..][c - 1] == chunks[c] && (n + 1) + (c - 1) !in lost;
          }
        }
        if id in AckedIn(chunks[1..], lost, n + 1) {
          var c :| 0 <= c < |chunks[1..]| && n + 1 + c !in lost && id in chunks[1..][c];
          assert chunks[c + 1] == chunks[1..][c] && n + (c + 1) !in lost;
        }
        if n !in lost && id in chunks[0] {
          assert n + 0 !in lost;
        }
      }
    }
  }

  lemma {:induction false} JoinedMembers(chunks: seq<seq<nat>>, c: nat)
    requires c < |chunks|
    ensures forall id :: id in chunks[c] ==> id in Joined(chunks)
  {
    if c > 0 {
      JoinedMembers(chunks[1..], c - 1);
    }
  }

  /** Only pending ids are acknowledged, and all of them when no request fails. */
  lemma AckedOfPending(pending: seq<nat>, lost: set<nat>)
    ensures forall id :: id in AckedOf(pending, lost) ==> id in pending
    ensures lost == {} ==> forall id :: id in pending ==> id in AckedOf(pending, lost)
  {
    var chunks := Chunks(pending);
    ChunksCoverPending(pending);
    AckedInMembers(chunks, lost, 0);
    forall c | 0 <= c < |chunks| { JoinedMembers(chunks, c); }
    if lost == {} {
      forall id | id in pending ensures id in AckedOf(pending, lost) {
        var c := ChunkOf(chunks, id);
        assert 0 + c !in lost;
      }
    }
  }

  /** The newest pending id travels in the last request, whose number is that of the full chunks before it. */
  lemma {:induction false} NewestIsAcked(pending: seq<nat>, id: nat, lost: set<nat>, n: nat)
    requires id !in pending
    ensures id in AckedIn(Chunks(pending + [id]), lost, n) <==> n + |pending| / CHUNK !in lost
    decreases |pending|
  {
    var ids := pending + [id];
    FirstChunk(ids, lost, n);
    if |pending| < CHUNK {
      assert ids[..|ids|] == ids && ids[|ids|..] == [];
      assert ids[|pending|] == id;
    } else {
      assert ids[..CHUNK] == pending[..CHUNK] && ids[CHUNK..] == pending[CHUNK..] + [id];
      NewestIsAcked(pending[CHUNK..], id, lost, n + 1);
      OneChunkLess(|pending|);
    }
  }

  lemma OneChunkLess(n: nat)
    requires n >= CHUNK
    ensures n / CHUNK == 1 + (n - CHUNK) / CHUNK
  {
  }

  lemma {:induction false} ChunkOf(chunks: seq<seq<nat>>, id: nat) returns (c: nat)
    requires id in Joined(chunks)
    ensures c < |chunks| && id in chunks[c]
  {
    if id in chunks[0] {
      c := 0;
    } else {
      var d := ChunkOf(chunks[1..], id);
      c := d + 1;
    }
  }

  lemma FirstChunk(ids: seq<nat>, lost: set<nat>, k: nat)
    requires ids != []
    ensures var n := Min(CHUNK, |ids|);
            && Chunks(ids) == [ids[..n]] + Chunks(ids[n..])
            && AckedIn(Chunks(ids), lost, k)
               == (if k in lost then {} else IdsOf(ids[..n])) + AckedIn(Chunks(ids[n..]), lost, k + 1)
  {
    var n := Min(CHUNK, |ids|);
    if |ids| <= CHUNK {
      assert ids[..n] == ids && ids[n..] == [];
    }
    assert Chunks(ids)[0] == ids[..n] && Chunks(ids)[1..] == Chunks(ids[n..]);
  }

  /** Between two requests: `requests` have been made, `rest` is still to be acknowledged. */
  ghost predicate Sending(ids: seq<nat>, lost: set<nat>, before: set<nat>, requests: seq<seq<nat>>, rest: seq<nat>,
                          acked: set<nat>)
  {
    && requests + Chunks(rest) == Chunks(ids)
    && acked + AckedIn(Chunks(rest), lost, |requests|) == before + AckedIn(Chunks(ids), lost, 0)
  }

  lemma NextChunk(ids: seq<nat>, lost: set<nat>, before: set<nat>, requests: seq<seq<nat>>, rest: seq<nat>,
                  acked: set<nat>)
    requires Sending(ids, lost, before, requests, rest, acked) && rest != []
    ensures var n := Min(CHUNK, |rest|);
            Sending(ids, lost, before, requests + [rest[..n]], rest[n..],
                    if |requests| in lost then acked else acked + IdsOf(rest[..n]))
  {
    var n := Min(CHUNK, |rest|);
    FirstChunk(rest, lost, |requests|);
    Regroup(requests, [rest[..n]], Chunks(rest[n..]));
    var now := if |requests| in lost then {} else IdsOf(rest[..n]);
    RegroupSets(acked, now, AckedIn(Chunks(rest[n..]), lost, |requests| + 1));
  }

  lemma Regroup(a: seq<seq<nat>>, b: seq<seq<nat>>, c: seq<seq<nat>>)
    ensures a + (b + c) == a + b + c
  {
  }

  lemma RegroupSets(a: set<nat>, b: set<nat>, c: set<nat>)
    ensures a + (b + c) == a + b + c && (b == {} ==> a + b == a)
  {
  }

  class PubSubSource {
    var pending: seq<nat>
    var acked: set<nat>

    constructor ()
      ensures pending == [] && acked == {}
    {
      pending, acked := [], {};
    }

    /** A decodable message becomes pending before it is yielded; a bad one is acknowledged at once. */
    method Receive(id: nat, decodable: bool)
      modifies this
      ensures pending == if decodable then old(pending) + [id] else old(pending)
      ensures acked == if decodable then old(acked) else old(acked) + {id}
    {
      if decodable {
        pending := pending + [id];
      } else {
        acked := acked + {id};
      }
    }

    /** Ack everything pending, in chunks; the requests numbered in `lost` fail and are only logged. */
    method OnBatchCommitted(lost: set<nat>) returns (requests: seq<seq<nat>>)
      modifies this
      ensures pending == [] && acked == old(acked) + AckedOf(old(pending), lost)
      ensures Joined(requests) == old(pending) && forall c :: c in requests ==> 1 <= |c| <= CHUNK
    {
      var ids := pending;
      pending := [];
      requests := [];
      ChunksCoverPending(ids);
      var rest := ids;
      while rest != []
        invariant pending == []
        invariant Sending(ids, lost, old(acked), requests, rest, acked)
        decreases |rest|
      {
        var n := Min(CHUNK, |rest|);
        var chunk := rest[..n];
        NextChunk(ids, lost, old(acked), requests, rest, acked);
        if |requests| !in lost {
          acked := acked + IdsOf(chunk);
        }
        requests := requests + [chunk];
        rest := rest[n..];
      }
      assert requests + [] == requests;
    }

    method Forget()
      modifies this
      ensures pending == [] && acked == old(acked)
    {
      pending := [];
    }
  }
}
