/** Server-sent events: the set of connected observers and the fan-out of one event
    to each of them (`sseClients` and `broadcastSSE`, present in both servers).
    A connection is named by an integer; what has been written to it is kept as a
    sequence of frames, so that "every connected observer receives the event" can
    be stated. The text encoding of a frame is not modelled. */
module Broadcast {

  /** One frame written to an event stream: the ':' comment sent on connect, or a
      named event with its payload. */
  datatype Frame<E> = Comment | Event(name: string, data: E)

  class Broadcaster<E> {
    /** The live connections (`sseClients`). */
    var clients: set<int>
    /** Everything written so far to each connection that was ever opened. */
    var sent: map<int, seq<Frame<E>>>

    ghost predicate Valid()
      reads this
    {
      clients <= sent.Keys
    }

    constructor ()
      ensures Valid() && clients == {} && sent == map[]
    {
      clients := {};
      sent := map[];
    }

    /** stream: write the opening comment and register the connection. */
    method Connect(c: int)
      requires Valid()
      modifies this
      ensures Valid()
      ensures clients == old(clients) + {c}
      ensures sent == old(sent)[c := (if c in old(sent) then old(sent)[c] else []) + [Comment]]
    {
      var before := if c in sent then sent[c] else [];
      sent := sent[c := before + [Comment]];
      clients := clients + {c};
    }

    /** The connection closed: forget it; nothing is written to it any more. */
    method Disconnect(c: int)
      requires Valid()
      modifies this
      ensures Valid()
      ensures clients == old(clients) - {c} && sent == old(sent)
    {
      clients := clients - {c};
    }

    /** broadcastSSE: write the event to every live connection, once each. */
    method Publish(name: string, data: E)
      requires Valid()
      modifies this
      ensures Valid()
      ensures clients == old(clients) && sent.Keys == old(sent.Keys)
      ensures forall c :: c in clients ==> sent[c] == old(sent[c]) + [Event(name, data)]
      ensures forall c :: c in sent && c !in clients ==> sent[c] == old(sent[c])
    {
      var pending := clients;
      while pending != {}
        invariant pending <= clients
        invariant Valid() && clients == old(clients) && sent.Keys == old(sent.Keys)
        invariant forall c :: c in clients && c !in pending ==>
          sent[c] == old(sent[c]) + [Event(name, data)]
        invariant forall c :: c in sent && (c !in clients || c in pending) ==> sent[c] == old(sent[c])
        decreases pending
      {
        ghost var some := SomeConnection(pending);
        var c :| c in pending;
        sent := sent[c := sent[c] + [Event(name, data)]];
        pending := pending - {c};
      }
    }
  }

  /** Only live connections were written to: the same connections are known and each
      one outside `live` still has the frames it had. */
  ghost predicate OnlyLiveWritten<E>(before: map<int, seq<Frame<E>>>, after: map<int, seq<Frame<E>>>, live: set<int>) {
    after.Keys == before.Keys && forall c :: c in before && c !in live ==> after[c] == before[c]
  }

  /** A non-empty set of connections has a member. */
  lemma SomeConnection(s: set<int>) returns (c: int)
    requires s != {}
    ensures c in s
  {
    if forall x :: x !in s {
      assert false;
    }
    c :| c in s;
  }
}
