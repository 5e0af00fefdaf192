/** What the entries of the Mongo log say of the commands answered (services/db-proxy/mongo/connection.go,
    lines 168 to 264). */
module MongoLog {
  import opened Bytes
  import opened Options
  import opened MongoCursors

  /** A find answered with a cursor that is still open, and a first batch. */
  predicate Begins(e: Event) {
    e.command.kind.Find? && e.info.cursorId != 0 && e.info.data.Some?
  }

  /** A getMore on the cursor of a find that is still being collected. */
  predicate GoesOn(events: seq<Event>, e: Event) {
    var open_ := OpenAt(events);
    e.command.kind.GetMore? && e.tag in open_ && open_[e.tag].id == e.command.kind.cursor
  }

  /** The answer closes a find that was being collected. */
  predicate Closes(events: seq<Event>, e: Event) {
    GoesOn(events, e) && e.info.cursorId == 0
  }

  /** Answers that open or continue a find say nothing yet. */
  predicate IsTold(events: seq<Event>, e: Event) {
    !Begins(e) && (GoesOn(events, e) ==> e.info.cursorId == 0)
  }

  /** A find that closes is told whole, under its own query, with the outcome of the last answer; every
      other command is told with its own answer. */
  ghost predicate Tells(events: seq<Event>, e: Event, entry: LogEntry) {
    && (entry.success <==> e.info.success) && entry.errmsg == e.info.errmsg
    && if Closes(events, e) then
         && entry.query == OpenAt(events)[e.tag].query && entry.n == None
         && entry.data == Some(Batches(events, e.tag) + e.info.data.GetOr([]))
       else
         && entry.query == e.command.query && entry.data == e.info.data
         && (entry.n.Some? <==> e.info.n > 0) && (entry.n.Some? ==> entry.n.value == e.info.n)
  }

  /** The places of the answers that are told. */
  function Told(events: seq<Event>): seq<nat> {
    if events == [] then []
    else
      var n := |events| - 1;
      Told(events[..n]) + (if IsTold(events[..n], events[n]) then [n] else [])
  }

  ghost predicate LogTells(events: seq<Event>, log: seq<LogEntry>) {
    var told := Told(events);
    |log| == |told| &&
    forall j :: 0 <= j < |told| ==> told[j] < |events| && Tells(events[..told[j]], events[told[j]], log[j])
  }

  lemma DueTells(events: seq<Event>, e: Event)
    ensures if IsTold(events, e) then |Due(events, e)| == 1 && Tells(events, e, Due(events, e)[0]) else Due(events, e) == []
  {
    hide Batches, OpenAt;
    BatchesAppended(events, e, e.tag);
  }

  lemma {:induction false} DueLogTells(events: seq<Event>)
    ensures LogTells(events, DueLog(events))
  {
    hide LogTells, IsTold, Tells, Due;
    if events == [] {
      NothingTold();
    } else {
      var n := |events| - 1;
      DueLogTells(events[..n]);
      DueTells(events[..n], events[n]);
      ToldMore(events, DueLog(events[..n]), Due(events[..n], events[n]));
    }
  }

  lemma NothingTold()
    ensures LogTells([], [])
  {
  }

  /** One more answer adds what it tells. */
  lemma ToldMore(events: seq<Event>, log: seq<LogEntry>, more: seq<LogEntry>)
    requires events != []
    requires var n := |events| - 1;
             && LogTells(events[..n], log)
             && if IsTold(events[..n], events[n]) then |more| == 1 && Tells(events[..n], events[n], more[0]) else more == []
    ensures LogTells(events, log + more)
  {
    hide IsTold, Tells;
    var n := |events| - 1;
    var front, told := events[..n], Told(events[..n]);
    forall j | 0 <= j < |told| ensures told[j] < n && Tells(events[..told[j]], events[told[j]], (log + more)[j]) {
      assert Tells(front[..told[j]], front[told[j]], log[j]);
      assert front[..told[j]] == events[..told[j]] && front[told[j]] == events[told[j]];
    }
  }

  /** After any legal run the log has one entry for each answer that is told, in order, and each tells it. */
  lemma AnswersAreTold(events: seq<Event>)
    requires Legal(events)
    ensures LogTells(events, After(events).1)
  {
    hide LogTells, After, DueLog, HoldsOpenFinds, Legal;
    FindsAreCollected(events);
    DueLogTells(events);
  }
}
