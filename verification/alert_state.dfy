/** The explicit alert transition table and the two searches over it. */
module AlertState {
  import opened Wrappers

  datatype State = Open | Assigned | Handling | Resolved | Closed | Revoked

  datatype Event = Accept | Start | Resolve | Close | Revoke | Release

  datatype Entry = Entry(from: State, event: Event, to: State)

  const TABLE: seq<Entry> := [
    Entry(Open, Accept, Assigned),
    Entry(Assigned, Start, Handling),
    Entry(Assigned, Release, Open),
    Entry(Handling, Resolve, Resolved),
    Entry(Handling, Release, Open),
    Entry(Resolved, Close, Closed),
    Entry(Open, Revoke, Revoked),
    Entry(Assigned, Revoke, Revoked),
    Entry(Handling, Revoke, Revoked)
  ]

  /** The first entry for this state and event. */
  function Lookup(table: seq<Entry>, from: State, event: Event): Option<State> {
    if table == [] then None
    else if table[0].from == from && table[0].event == event then Some(table[0].to)
    else Lookup(table[1..], from, event)
  }

  function NextState(from: State, event: Event): Option<State> {
    Lookup(TABLE, from, event)
  }

  /** The events of all entries leaving this state, in table order. */
  function Events(table: seq<Entry>, from: State): seq<Event> {
    if table == [] then []
    else (if table[0].from == from then [table[0].event] else []) + Events(table[1..], from)
  }

  function LegalTransitions(from: State): seq<Event> {
    Events(TABLE, from)
  }

  /** The states FindActive selects. */
  predicate Active(state: State) {
    state.Open? || state.Assigned? || state.Handling?
  }

  /** The two searches agree on any table: an event is listed exactly when it resolves. */
  lemma {:induction false} ListedIffResolved(table: seq<Entry>, from: State, event: Event)
    ensures event in Events(table, from) <==> Lookup(table, from, event).Some?
  {
    if table != [] {
      ListedIffResolved(table[1..], from, event);
    }
  }

  lemma {:induction false} LookupIsAnEntry(table: seq<Entry>, from: State, event: Event)
    ensures match Lookup(table, from, event)
      case Some(to) => Entry(from, event, to) in table
      case None => forall e :: e in table ==> e.from != from || e.event != event
  {
    if table != [] {
      LookupIsAnEntry(table[1..], from, event);
      assert table == [table[0]] + table[1..];
    }
  }

  /** No entry leads from an inactive state back to an active one. */
  lemma NeverReactivated(from: State, event: Event)
    ensures var to := NextState(from, event);
      to.Some? && Active(to.value) ==> Active(from)
  {
    if NextState(from, event).Some? {
      TableIsLifecycle(from, event, NextState(from, event).value);
    }
  }

  /** The lifecycle in words: accept, start, resolve and close in this order, release back to open
      while in somebody's hands, revoke at any time before that. */
  predicate Lifecycle(from: State, event: Event, to: State) {
    match event
    case Accept => from.Open? && to.Assigned?
    case Start => from.Assigned? && to.Handling?
    case Resolve => from.Handling? && to.Resolved?
    case Close => from.Resolved? && to.Closed?
    case Release => (from.Assigned? || from.Handling?) && to.Open?
    case Revoke => Active(from) && to.Revoked?
  }

  lemma EntriesAreLifecycle(e: Entry)
    ensures e in TABLE <==> Lifecycle(e.from, e.event, e.to)
  {
  }

  lemma LookupByLifecycle(table: seq<Entry>, from: State, event: Event, to: State)
    requires forall e :: e in table <==> Lifecycle(e.from, e.event, e.to)
    ensures Lookup(table, from, event) == Some(to) <==> Lifecycle(from, event, to)
  {
    LookupIsAnEntry(table, from, event);
    assert Entry(from, event, to) in table <==> Lifecycle(from, event, to);
  }

  /** The table is exactly that lifecycle. */
  lemma TableIsLifecycle(from: State, event: Event, to: State)
    ensures NextState(from, event) == Some(to) <==> Lifecycle(from, event, to)
  {
    forall e {
      EntriesAreLifecycle(e);
    }
    LookupByLifecycle(TABLE, from, event, to);
  }
}
