/** One collection round of the exporter (`collect`): ask HAProxy for its
    stick-tables, then ask for each table's dump and parse it, in listing
    order, stopping at the first failed request.

    The request to HAProxy's runtime socket is a parameter `ask`: it maps a
    command to the answer text or to the error the request ended with. The
    Go function empties the package-level snapshot slice first and appends
    one snapshot per parsed dump, so after a failure the slice holds the
    snapshots of the tables dumped before it; `Outcome` holds that slice and
    the error `collect` returns. */
module Collector {
  import opened Wrappers
  import opened Text
  import opened Listing
  import opened Dump

  /** The command that lists the stick-tables. */
  const ListCommand: string := "show table"

  /** The command that dumps one stick-table. */
  function DumpCommand(name: string): (cmd: string)
    ensures ListCommand < cmd && cmd[|ListCommand|] == ' ' && cmd[|ListCommand| + 1..] == name
  {
    ListCommand + " " + name
  }

  /** The snapshot slice after a round, and the error the round returned
      (None for Go's nil). */
  datatype Outcome<E> = Outcome(snapshots: seq<TableMetrics>, err: Option<E>)

  /** The replies to the dump requests for the table names, in order. */
  function Replies<E>(ask: string -> Result<string, E>, names: seq<string>): (rs: seq<Result<string, E>>)
    ensures |rs| == |names|
  {
    seq(|names|, i requires 0 <= i < |names| => ask(DumpCommand(names[i])))
  }

  /** The first `n` dump requests succeed, so the loop reaches request `n`. */
  predicate Reached<E>(replies: seq<Result<string, E>>, n: nat)
    requires n <= |replies|
  {
    forall j :: 0 <= j < n ==> replies[j].Success?
  }

  /** A dump reader: the snapshot of a table read from its dump, None when
      the dump cannot be read. */
  type Reader = (string, string) -> Option<TableMetrics>

  /** Every dump the loop reaches and receives can be read. */
  predicate DumpsOk<E>(read: Reader, names: seq<string>, replies: seq<Result<string, E>>) {
    && |names| == |replies|
    && forall i :: 0 <= i < |names| && Reached(replies, i) && replies[i].Success? ==>
         read(names[i], replies[i].value).Some?
  }

  /** The loop of `collect` over the table names and the replies to their
      dump requests: read each dump in order; the first failed request ends
      the loop with its error. The snapshots are those of the tables before
      the failure (all of them when there is none). */
  function DumpAll<E>(read: Reader, names: seq<string>, replies: seq<Result<string, E>>): (o: Outcome<E>)
    requires DumpsOk(read, names, replies)
    ensures |o.snapshots| <= |names| && Reached(replies, |o.snapshots|)
    ensures o.err.None? <==> |o.snapshots| == |names|
    ensures o.err.Some? ==> replies[|o.snapshots|] == Failure(o.err.value)
    ensures forall i :: 0 <= i < |o.snapshots| ==> Some(o.snapshots[i]) == read(names[i], replies[i].value)
  {
    if |names| == 0 then Outcome([], None)
    else
      var n := |names| - 1;
      assert DumpsOk(read, names[..n], replies[..n]);
      var prev := DumpAll(read, names[..n], replies[..n]);
      if prev.err.Some? then prev
      else
        match replies[n]
        case Failure(e) => Outcome(prev.snapshots, Some(e))
        case Success(answer) => Outcome(prev.snapshots + [read(names[n], answer).value], None)
  }

  /** When every request succeeds, the loop ends without an error. */
  lemma {:induction false} DumpAllComplete<E>(read: Reader, names: seq<string>, replies: seq<Result<string, E>>)
    requires DumpsOk(read, names, replies)
    requires forall i :: 0 <= i < |replies| ==> replies[i].Success?
    ensures DumpAll(read, names, replies).err.None?
    decreases |names|
  {
    if |names| > 0 {
      var n := |names| - 1;
      assert DumpsOk(read, names[..n], replies[..n]);
      DumpAllComplete(read, names[..n], replies[..n]);
    }
  }

  /** What `collect` needs to run without a panic: a listing it can parse,
      and dumps it can parse for the tables it reaches. */
  predicate CollectOk<E>(ask: string -> Result<string, E>) {
    ask(ListCommand).Success? ==>
      ListingOk(ask(ListCommand).value)
      && var names := TablesFromAnswer(ask(ListCommand).value);
         DumpsOk(ReadDump, names, Replies(ask, names))
  }

  /** `collect`: a failed "show table" request ends the round with no
      snapshots and its error. Otherwise the round dumps the listed tables in
      order: without a failure there is exactly one snapshot per listed
      table; a failed dump request ends the round with its error and the
      snapshots of the tables before it. */
  function Collect<E>(ask: string -> Result<string, E>): (o: Outcome<E>)
    requires CollectOk(ask)
    ensures ask(ListCommand).Failure? ==> o.snapshots == [] && o.err == Some(ask(ListCommand).error)
    ensures ask(ListCommand).Success? ==>
              var names := TablesFromAnswer(ask(ListCommand).value);
              && |o.snapshots| <= |names|
              && (forall j :: 0 <= j < |o.snapshots| ==> ask(DumpCommand(names[j])).Success?)
              && (o.err.None? <==> |o.snapshots| == |names|)
              && (o.err.Some? ==> ask(DumpCommand(names[|o.snapshots|])) == Failure(o.err.value))
              && (forall j :: 0 <= j < |o.snapshots| ==> o.snapshots[j].name == names[j])
  {
    match ask(ListCommand)
    case Failure(e) => Outcome([], Some(e))
    case Success(answer) =>
      var names := TablesFromAnswer(answer);
      DumpAll(ReadDump, names, Replies(ask, names))
  }

  /** The i-th snapshot of a round is the i-th listed table's dump, parsed,
      so it carries that table's name. */
  lemma CollectSnapshot<E>(ask: string -> Result<string, E>, i: nat)
    requires CollectOk(ask) && i < |Collect(ask).snapshots|
    ensures ask(ListCommand).Success?
    ensures var names := TablesFromAnswer(ask(ListCommand).value);
            && i < |names|
            && ask(DumpCommand(names[i])).Success?
            && DumpOk(names[i], ask(DumpCommand(names[i])).value)
            && Collect(ask).snapshots[i] == TableMetricsFromAnswer(names[i], ask(DumpCommand(names[i])).value)
            && Collect(ask).snapshots[i].name == names[i]
  {
    var names := TablesFromAnswer(ask(ListCommand).value);
    var replies := Replies(ask, names);
    var o := DumpAll(ReadDump, names, replies);
    assert Collect(ask) == o;
    assert replies[i] == ask(DumpCommand(names[i]));
    assert Some(o.snapshots[i]) == ReadDump(names[i], replies[i].value);
  }

  /** The replies to the dump requests for the listed tables, read one by one. */
  lemma RepliesRead<E>(read: Reader, ask: string -> Result<string, E>, tables: seq<(string, string)>)
    requires forall i :: 0 <= i < |tables| ==> ask(DumpCommand(tables[i].0)).Success?
    requires forall i :: 0 <= i < |tables| ==> read(tables[i].0, ask(DumpCommand(tables[i].0)).value).Some?
    ensures var names := Names(tables);
            forall i :: 0 <= i < |names| ==>
              Replies(ask, names)[i].Success? && read(names[i], Replies(ask, names)[i].value).Some?
  {
    var names := Names(tables);
    var replies := Replies(ask, names);
    forall i | 0 <= i < |names| ensures replies[i].Success? && read(names[i], replies[i].value).Some? {
      assert replies[i] == ask(DumpCommand(tables[i].0));
    }
  }

  /** When every dump request for the listed tables succeeds with a dump the
      reader can read, the loop reaches and reads every dump. */
  lemma AllDumpsRead<E>(read: Reader, ask: string -> Result<string, E>, tables: seq<(string, string)>)
    requires forall i :: 0 <= i < |tables| ==> ask(DumpCommand(tables[i].0)).Success?
    requires forall i :: 0 <= i < |tables| ==> read(tables[i].0, ask(DumpCommand(tables[i].0)).value).Some?
    ensures DumpsOk(read, Names(tables), Replies(ask, Names(tables)))
    ensures DumpAll(read, Names(tables), Replies(ask, Names(tables))).err.None?
  {
    RepliesRead(read, ask, tables);
    DumpAllComplete(read, Names(tables), Replies(ask, Names(tables)));
  }

  /** A round whose listing names the given tables, in which every dump
      request succeeds with a dump the exporter can read, ends without an
      error and with one snapshot per table, in listing order. */
  lemma CollectNamedTables<E>(ask: string -> Result<string, E>, tables: seq<(string, string)>)
    requires ask(ListCommand).Success? && ListingOk(ask(ListCommand).value)
    requires TablesFromAnswer(ask(ListCommand).value) == Names(tables)
    requires forall i :: 0 <= i < |tables| ==> ask(DumpCommand(tables[i].0)).Success?
    requires forall i :: 0 <= i < |tables| ==> ReadDump(tables[i].0, ask(DumpCommand(tables[i].0)).value).Some?
    ensures CollectOk(ask)
    ensures Collect(ask).err == None
    ensures |Collect(ask).snapshots| == |tables|
    ensures forall i :: 0 <= i < |tables| ==> Collect(ask).snapshots[i].name == tables[i].0
  {
    AllDumpsRead(ReadDump, ask, tables);
  }

  /** A round over a rendered listing of the given tables in which every
      request succeeds and every dump can be read ends without an error and
      with one snapshot per table, in listing order; an empty listing gives
      an empty round. */
  lemma CollectListedTables<E>(ask: string -> Result<string, E>, tables: seq<(string, string)>)
    requires forall i :: 0 <= i < |tables| ==> ',' !in tables[i].0 && '\n' !in tables[i].0
    requires forall i :: 0 <= i < |tables| ==> '\n' !in tables[i].1
    requires ask(ListCommand) == Success(Join(ListingLines(tables), '\n'))
    requires forall i :: 0 <= i < |tables| ==> ask(DumpCommand(tables[i].0)).Success?
    requires forall i :: 0 <= i < |tables| ==> ReadDump(tables[i].0, ask(DumpCommand(tables[i].0)).value).Some?
    ensures CollectOk(ask)
    ensures Collect(ask).err == None
    ensures |Collect(ask).snapshots| == |tables|
    ensures forall i :: 0 <= i < |tables| ==> Collect(ask).snapshots[i].name == tables[i].0
  {
    ListingRoundTrip(tables);
    CollectNamedTables(ask, tables);
  }
}
