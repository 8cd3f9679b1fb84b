/** The per-vertex message lists a push channel delivers in the next round. */
module Inboxes {
  import opened Seqs

  /** Messages per destination id, in arrival order. */
  type Inbox<M> = map<int, seq<M>>

  function InboxOf<M>(inbox: Inbox<M>, dst: int): seq<M> {
    if dst in inbox then inbox[dst] else []
  }

  /** `ch.push(msg, dst)`. */
  function Send<M>(inbox: Inbox<M>, dst: int, msg: M): (r: Inbox<M>)
    ensures r.Keys == inbox.Keys + {dst}
    ensures InboxOf(r, dst) == InboxOf(inbox, dst) + [msg]
    ensures forall a :: a != dst ==> InboxOf(r, a) == InboxOf(inbox, a)
  {
    inbox[dst := InboxOf(inbox, dst) + [msg]]
  }

  /** `r` is `inbox` after `msg` was pushed once to every id in `done`. */
  ghost predicate Pushed<M>(inbox: Inbox<M>, r: Inbox<M>, done: set<int>, msg: M) {
    && (forall a :: a in done ==> InboxOf(r, a) == InboxOf(inbox, a) + [msg])
    && (forall a :: a !in done ==> InboxOf(r, a) == InboxOf(inbox, a))
  }

  lemma PushedStep<M>(inbox: Inbox<M>, r: Inbox<M>, done: set<int>, msg: M, dst: int)
    requires Pushed(inbox, r, done, msg) && dst !in done
    ensures Pushed(inbox, Send(r, dst, msg), done + {dst}, msg)
  {
  }

  /** `for (auto a : v.resCaps) ch.push(msg, a.first)`: every neighbour gets the message once, in
      whatever order the map is walked. */
  method PushAll<M>(inbox: Inbox<M>, neighbours: set<int>, msg: M) returns (r: Inbox<M>)
    ensures forall a :: a in neighbours ==> InboxOf(r, a) == InboxOf(inbox, a) + [msg]
    ensures forall a :: a !in neighbours ==> InboxOf(r, a) == InboxOf(inbox, a)
  {
    r := inbox;
    var todo := neighbours;
    ghost var done: set<int> := {};
    while todo != {}
      invariant done + todo == neighbours && done !! todo
      invariant Pushed(inbox, r, done, msg)
      decreases todo
    {
      Member(todo);
      var a :| a in todo;
      PushedStep(inbox, r, done, msg, a);
      r := Send(r, a, msg);
      todo := todo - {a};
      done := done + {a};
    }
  }
}
