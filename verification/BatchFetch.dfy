/** Running the batch trade query: rows become entries, malformed rows are skipped, and the entries are
    grouped by order hash. */
module BatchFetch {
  import opened Multisets
  import opened Wrappers
  import opened OrderTables
  import opened TakeAttribution
  import opened TradeGrouping
  import opened TradeId
  import C = ClearPairing

  const TWO_TO_THE_256 := TWO_TO_THE_64 * TWO_TO_THE_64 * TWO_TO_THE_64 * TWO_TO_THE_64

  /** Hashes and addresses as the numbers their hexadecimal text stands for. */
  type Word = n: nat | n < TWO_TO_THE_256

  datatype RawRow = RawRow(
    hash: string, tx: string, timestamp: int, sender: string, inputDelta: string, outputDelta: string, id: string)

  datatype Entry = Entry(id: string, tx: Word, input: string, output: string, timestamp: int, sender: Word)

  /** The parsing and float functions of the libraries; each may refuse. */
  datatype Library<!F> = Library(
    hash: string -> Option<Word>,
    address: string -> Option<Word>,
    fromHex: string -> Option<F>,
    minusOne: Option<F>,
    times: (F, F) -> Option<F>,
    format: F -> Option<string>)

  function FormatHex<F>(lib: Library<F>, hex: string): Option<string> {
    match lib.fromHex(hex)
    case None => None
    case Some(x) => lib.format(x)
  }

  function NegateAndFormatHex<F>(lib: Library<F>, hex: string): Option<string> {
    match (lib.minusOne, lib.fromHex(hex))
    case (Some(m), Some(x)) => (match lib.times(m, x) case None => None case Some(y) => lib.format(y))
    case _ => None
  }

  /** `convert_raw_trade`: the entry and the order it belongs to, unless some part is malformed. */
  function Convert<F>(lib: Library<F>, raw: RawRow): Option<(Word, Entry)> {
    match (lib.hash(raw.hash), lib.hash(raw.tx), lib.address(raw.sender),
           FormatHex(lib, raw.inputDelta), NegateAndFormatHex(lib, raw.outputDelta))
    case (Some(hash), Some(tx), Some(sender), Some(input), Some(output)) =>
      Some((hash, Entry(raw.id, tx, input, output, raw.timestamp % TWO_TO_THE_64, sender)))
    case _ => None
  }

  /** The amount's text is the formatted float that the hexadecimal text stands for. */
  predicate FormatsTo<F>(lib: Library<F>, hex: string, text: string) {
    lib.fromHex(hex).Some? && lib.format(lib.fromHex(hex).value) == Some(text)
  }

  /** The amount's text is minus one times that float. */
  predicate NegatesTo<F>(lib: Library<F>, hex: string, text: string) {
    && lib.fromHex(hex).Some? && lib.minusOne.Some?
    && lib.times(lib.minusOne.value, lib.fromHex(hex).value).Some?
    && lib.format(lib.times(lib.minusOne.value, lib.fromHex(hex).value).value) == Some(text)
  }

  /** The row is a well-formed one of the order, and this is its entry: hash, transaction and sender parsed,
      the input formatted, the output negated and formatted, the identifier as it is, and the timestamp as
      an unsigned number. */
  predicate Converts<F>(lib: Library<F>, raw: RawRow, h: Word, entry: Entry) {
    && lib.hash(raw.hash) == Some(h)
    && lib.hash(raw.tx) == Some(entry.tx) && lib.address(raw.sender) == Some(entry.sender)
    && FormatsTo(lib, raw.inputDelta, entry.input) && NegatesTo(lib, raw.outputDelta, entry.output)
    && entry.id == raw.id
    && 0 <= entry.timestamp < TWO_TO_THE_64 && (raw.timestamp - entry.timestamp) % TWO_TO_THE_64 == 0
  }

  lemma ConvertMeans<F>(lib: Library<F>, raw: RawRow, h: Word, entry: Entry)
    ensures Convert(lib, raw) == Some((h, entry)) <==> Converts(lib, raw, h, entry)
  {
  }

  // ---------------------------------------------------------------- grouping

  function EntryOf<F>(lib: Library<F>, raw: RawRow, h: Word): seq<Entry> {
    match Convert(lib, raw)
    case None => []
    case Some((hash, entry)) => if hash == h then [entry] else []
  }

  /** The well-formed rows of one order, in the order of the answer. */
  function EntriesOf<F>(lib: Library<F>, raws: seq<RawRow>, h: Word): seq<Entry> {
    if raws == [] then []
    else EntriesOf(lib, raws[..|raws| - 1], h) + EntryOf(lib, raws[|raws| - 1], h)
  }

  /** Entry `k` of the list comes from row `picks[k]`, the rows are in order, and every row that is not
      picked is of another order or malformed. */
  ghost predicate Picks<F>(lib: Library<F>, raws: seq<RawRow>, h: Word, list: seq<Entry>, picks: seq<nat>) {
    && |picks| == |list|
    && (forall k :: 0 <= k < |picks| ==> picks[k] < |raws| && Converts(lib, raws[picks[k]], h, list[k]))
    && (forall k, l :: 0 <= k < l < |picks| ==> picks[k] < picks[l])
    && forall i, entry :: 0 <= i < |raws| && i !in picks ==> !Converts(lib, raws[i], h, entry)
  }

  ghost predicate ListsExactly<F>(lib: Library<F>, raws: seq<RawRow>, h: Word, list: seq<Entry>) {
    exists picks :: Picks(lib, raws, h, list, picks)
  }

  lemma {:induction false} EntriesArePicked<F>(lib: Library<F>, raws: seq<RawRow>, h: Word) returns (picks: seq<nat>)
    ensures Picks(lib, raws, h, EntriesOf(lib, raws, h), picks)
  {
    hide Convert, Converts;
    picks := [];
    if raws != [] {
      var n := |raws| - 1;
      var rest, last := raws[..n], raws[n];
      picks := EntriesArePicked(lib, rest, h);
      forall entry ensures Convert(lib, last) == Some((h, entry)) <==> Converts(lib, last, h, entry) {
        ConvertMeans(lib, last, h, entry);
      }
      if EntryOf(lib, last, h) != [] {
        picks := picks + [n];
      }
    }
  }

  ghost predicate Groups<F>(lib: Library<F>, raws: seq<RawRow>, found: map<Word, seq<Entry>>) {
    && (forall h :: h in found <==> EntriesOf(lib, raws, h) != [])
    && (forall h :: h in found ==> found[h] == EntriesOf(lib, raws, h))
  }

  lemma GroupsList<F>(lib: Library<F>, raws: seq<RawRow>, found: map<Word, seq<Entry>>)
    requires Groups(lib, raws, found)
    ensures forall h: Word :: ListsExactly(lib, raws, h, if h in found then found[h] else []) && (h in found ==> found[h] != [])
  {
    hide Picks, EntriesOf;
    forall h: Word ensures ListsExactly(lib, raws, h, if h in found then found[h] else []) {
      var picks := EntriesArePicked(lib, raws, h);
    }
  }

  function Values(rows: seq<Result<RawRow>>): seq<RawRow>
    requires Err !in rows
  {
    seq(|rows|, i requires 0 <= i < |rows| => rows[i].value)
  }

  /** `batch_fetch` once the query has been sent. `answer` is an error if the connection is unusable or
      the query fails; a row is one if it cannot be read. */
  method BatchFetch<F>(lib: Library<F>, hashes: seq<Word>, answer: Result<seq<Result<RawRow>>>)
    returns (r: Result<map<Word, seq<Entry>>>)
    ensures hashes == [] ==> r == Ok(map[])
    ensures hashes != [] ==> (r.Err? <==> answer.Err? || Err in answer.value)
    ensures hashes != [] && r.Ok? ==> Groups(lib, Values(answer.value), r.value)
    ensures hashes != [] && r.Ok? ==> forall h: Word ::
      ListsExactly(lib, Values(answer.value), h, if h in r.value then r.value[h] else []) && (h in r.value ==> r.value[h] != [])
  {
    if hashes == [] {
      return Ok(map[]);
    }
    match answer {
      case Err => return Err;
      case Ok(rows) =>
        var result: map<Word, seq<Entry>> := map[];
        ghost var raws: seq<RawRow> := [];
        for i := 0 to |rows|
          invariant |raws| == i && forall k :: 0 <= k < i ==> rows[k] == Ok(raws[k])
          invariant Groups(lib, raws, result)
        {
          match rows[i] {
            case Err => return Err;
            case Ok(raw) =>
              match Convert(lib, raw) {
                case Some((hash, entry)) =>
                  var list := if hash in result then result[hash] else [];
                  result := result[hash := list + [entry]];
                case None =>
              }
              assert (raws + [raw])[..|raws|] == raws;
              raws := raws + [raw];
          }
        }
        assert raws == Values(rows);
        GroupsList(lib, raws, result);
        return Ok(result);
    }
  }

  // ---------------------------------------------------------------- the grouped answer of the query

  /** A row of the answer, with the identifier the query builds for it. */
  function Raw(row: Row): RawRow {
    RawRow(row.hash, row.tx, row.timestamp, row.sender, row.inputDelta, row.outputDelta, Identifier(row.tx, row.log))
  }

  function Raws(rows: seq<Row>): seq<RawRow> {
    seq(|rows|, i requires 0 <= i < |rows| => Raw(rows[i]))
  }

  /** An entry is listed for an order exactly if some row of the answer converts to it. */
  lemma ListedIff<F>(lib: Library<F>, rows: seq<Row>, h: Word, entry: Entry)
    ensures entry in EntriesOf(lib, Raws(rows), h) <==> exists row :: row in rows && Converts(lib, Raw(row), h, entry)
  {
    hide Converts, EntriesOf, Raw;
    var picks := EntriesArePicked(lib, Raws(rows), h);
    if entry in EntriesOf(lib, Raws(rows), h) {
      var k: nat :| k < |picks| && EntriesOf(lib, Raws(rows), h)[k] == entry;
      assert rows[picks[k]] in rows;
    }
    if row :| row in rows && Converts(lib, Raw(row), h, entry) {
      var i: nat :| i < |rows| && rows[i] == row;
      assert Raws(rows)[i] == Raw(row);
      var k: nat :| k < |picks| && picks[k] == i;
      OneConversion(lib, Raw(row), h, entry, EntriesOf(lib, Raws(rows), h)[k]);
    }
  }

  lemma OneConversion<F>(lib: Library<F>, raw: RawRow, h: Word, a: Entry, b: Entry)
    requires Converts(lib, raw, h, a) && Converts(lib, raw, h, b)
    ensures a == b
  {
    ConvertMeans(lib, raw, h, a);
    ConvertMeans(lib, raw, h, b);
  }

  /** The entry of a take: what the taker got out is the order's input, and what the taker put in, negated,
      its output. */
  lemma TakeEntryMeans<F>(lib: Library<F>, row: Row, t: Take, e: OrderEvent, h: Word, entry: Entry)
    requires ReportsTake(row, t, e)
    ensures Converts(lib, Raw(row), h, entry) <==>
      && lib.hash(e.hash) == Some(h)
      && lib.hash(t.tx) == Some(entry.tx) && lib.address(t.sender) == Some(entry.sender)
      && FormatsTo(lib, t.takerOutput, entry.input) && NegatesTo(lib, t.takerInput, entry.output)
      && entry.id == Identifier(t.tx, t.at.log)
      && 0 <= entry.timestamp < TWO_TO_THE_64 && (t.timestamp - entry.timestamp) % TWO_TO_THE_64 == 0
  {
  }

  /** The entry of one side of a clear. */
  lemma ClearEntryMeans<F>(lib: Library<F>, row: Row, c: Clear, a: AfterClear, h: Word, entry: Entry)
    requires C.ReportsAlice(row, c, a) || C.ReportsBob(row, c, a)
    ensures Converts(lib, Raw(row), h, entry) ==>
      && lib.hash(c.tx) == Some(entry.tx) && lib.address(c.sender) == Some(entry.sender)
      && entry.id == Identifier(c.tx, c.at.log)
      && (C.ReportsAlice(row, c, a) ==>
            lib.hash(c.aliceHash) == Some(h) && FormatsTo(lib, a.aliceInput, entry.input) && NegatesTo(lib, a.aliceOutput, entry.output))
      && (C.ReportsBob(row, c, a) ==>
            lib.hash(c.bobHash) == Some(h) && FormatsTo(lib, a.bobInput, entry.input) && NegatesTo(lib, a.bobOutput, entry.output))
  {
  }

  predicate NamedOnly<F>(lib: Library<F>, row: Row, h: Word, text: string) {
    lib.hash(row.hash) == Some(h) <==> row.hash == text
  }

  lemma OneMoreRow<F>(lib: Library<F>, rows: seq<Row>, last: Row, h: Word)
    ensures EntriesOf(lib, Raws(rows + [last]), h) == EntriesOf(lib, Raws(rows), h) + EntryOf(lib, Raw(last), h)
  {
    hide Convert, Raw;
    assert Raws(rows + [last])[..|rows|] == Raws(rows);
  }

  lemma {:induction false} ListIsRowsFor<F>(lib: Library<F>, rows: seq<Row>, h: Word, text: string)
    requires forall row :: row in rows ==> NamedOnly(lib, row, h, text)
    ensures EntriesOf(lib, Raws(rows), h) == EntriesOf(lib, Raws(RowsFor(rows, text)), h)
  {
    hide EntriesOf, Raws;
    if rows != [] {
      var rest, last := rows[..|rows| - 1], rows[|rows| - 1];
      ListIsRowsFor(lib, rest, h, text);
      assert NamedOnly(lib, last, h, text);
      assert rest + [last] == rows;
      OneMoreRow(lib, rest, last, h);
      OneMoreRow(lib, RowsFor(rest, text), last, h);
      assert RowsFor(rest, text) + [] == RowsFor(rest, text);
    }
  }

  /** The hash texts bound to the query, and the rows that can come back for them. */
  ghost predicate Bound<F>(lib: Library<F>, text: Word -> string, hashes: set<Word>, q: Query) {
    && q.hashes == (set h | h in hashes :: text(h))
    && forall h :: h in hashes ==> lib.hash(text(h)) == Some(h)
  }

  lemma AnswersAreRequested(db: Tables, q: Query, rows: seq<Row>, row: Row)
    requires Answers(db, q, rows) && row in rows
    ensures row.hash in q.hashes
  {
    hide TakeTrades, C.ClearTrades;
    assert row in Union(db, q);
    if row in C.ClearTrades(C.Alice, db, q) {
      var c, a := C.JoinedExplains(row, C.Alice, db, q);
    } else if row in C.ClearTrades(C.Bob, db, q) {
      var c, a := C.JoinedExplains(row, C.Bob, db, q);
    } else {
      TakesAreRequested(db.takes, db.events, q, row);
    }
  }

  lemma {:induction false} TakesAreRequested(takes: seq<Take>, events: seq<OrderEvent>, q: Query, row: Row)
    requires row in TakeTrades(takes, events, q)
    ensures row.hash in q.hashes
  {
    var t, rest := takes[|takes| - 1], takes[..|takes| - 1];
    if row in TakeTrades(rest, events, q) {
      TakesAreRequested(rest, events, q, row);
    } else {
      RowsAreRequested(t, events, events, q, row);
    }
  }

  lemma {:induction false} RowsAreRequested(t: Take, adds: seq<OrderEvent>, events: seq<OrderEvent>, q: Query, row: Row)
    requires row in RowsOf(t, adds, events, q)
    ensures row.hash in q.hashes
  {
    var rest := RowsOf(t, adds[..|adds| - 1], events, q);
    if row in rest {
      RowsAreRequested(t, adds[..|adds| - 1], events, q, row);
    }
  }

  lemma ListOf<F>(lib: Library<F>, text: Word -> string, hashes: set<Word>, db: Tables, q: Query, h: Word, rows: seq<Row>)
    requires Bound(lib, text, hashes, q) && h in hashes && Answers(db, q, rows)
    ensures EntriesOf(lib, Raws(rows), h) == EntriesOf(lib, Raws(RowsFor(rows, text(h))), h)
  {
    forall row | row in rows ensures NamedOnly(lib, row, h, text(h)) {
      AnswersAreRequested(db, q, rows, row);
    }
    ListIsRowsFor(lib, rows, h, text(h));
  }

  lemma NoRows<F>(lib: Library<F>, h: Word)
    ensures EntriesOf(lib, Raws([]), h) == []
  {
  }

  lemma {:induction false} OneMoreFirst<F>(lib: Library<F>, row: Row, rows: seq<Row>, h: Word)
    ensures EntriesOf(lib, Raws([row] + rows), h) == EntryOf(lib, Raw(row), h) + EntriesOf(lib, Raws(rows), h)
    decreases |rows|
  {
    hide Convert, Raw, EntriesOf, EntryOf, Raws;
    if rows == [] {
      assert [] + [row] == [row] + rows;
      OneMoreRow(lib, [], row, h);
      NoRows(lib, h);
    } else {
      var rest, last := rows[..|rows| - 1], rows[|rows| - 1];
      OneMoreFirst(lib, row, rest, h);
      assert [row] + rows == ([row] + rest) + [last] && rows == rest + [last];
      OneMoreRow(lib, [row] + rest, last, h);
      OneMoreRow(lib, rest, last, h);
    }
  }

  lemma {:induction false} OneMoreWithin<F>(lib: Library<F>, front: seq<Row>, row: Row, back: seq<Row>, h: Word)
    ensures multiset(EntriesOf(lib, Raws(front + [row] + back), h))
         == multiset(EntryOf(lib, Raw(row), h)) + multiset(EntriesOf(lib, Raws(front + back), h))
    decreases |front|
  {
    hide Convert, Raw, EntriesOf, Raws;
    if front == [] {
      assert front + [row] + back == [row] + back && front + back == back;
      OneMoreFirst(lib, row, back, h);
    } else {
      assert front + [row] + back == [front[0]] + (front[1..] + [row] + back);
      assert front + back == [front[0]] + (front[1..] + back);
      OneMoreWithin(lib, front[1..], row, back, h);
      OneMoreFirst(lib, front[0], front[1..] + [row] + back, h);
      OneMoreFirst(lib, front[0], front[1..] + back, h);
    }
  }

  /** The same rows in another order give the same entries in another order. */
  lemma {:induction false} SameRowsSameEntries<F>(lib: Library<F>, a: seq<Row>, b: seq<Row>, h: Word)
    requires multiset(a) == multiset(b)
    ensures multiset(EntriesOf(lib, Raws(a), h)) == multiset(EntriesOf(lib, Raws(b), h))
    decreases |a|
  {
    hide Convert, Raw, EntriesOf, EntryOf, Raws;
    if a == [] {
      assert |multiset(b)| == |b|;
    } else {
      var row, rest := a[0], a[1..];
      assert a == [row] + rest;
      var front, back := TakeOut(row, rest, b);
      OneMoreFirst(lib, row, rest, h);
      OneMoreWithin(lib, front, row, back, h);
      SameRowsSameEntries(lib, rest, front + back, h);
    }
  }

  /** If no take can be claimed by two requested orders, the list a batch holds for an order is one that the
      order's own query can give. Any list its own query gives has the same entries, and without ties it
      is the same list; malformed rows are missing from both. */
  lemma ListedLikeOwn<F>(lib: Library<F>, text: Word -> string, hashes: set<Word>, db: Tables, q: Query, h: Word,
                         rows: seq<Row>, own: seq<Row>)
    requires Bound(lib, text, hashes, q) && h in hashes && DistinctAdds(db.events)
    requires Answers(db, q, rows) && Answers(db, Only(q, text(h)), own)
    requires forall i :: 0 <= i < |db.takes| && InScope(db.takes[i], q) ==> HashDetermined(db.takes[i], db.events, q)
    ensures Answers(db, Only(q, text(h)), RowsFor(rows, text(h)))
    ensures EntriesOf(lib, Raws(rows), h) == EntriesOf(lib, Raws(RowsFor(rows, text(h))), h)
    ensures multiset(EntriesOf(lib, Raws(rows), h)) == multiset(EntriesOf(lib, Raws(own), h))
    ensures NoTies(own) ==> EntriesOf(lib, Raws(rows), h) == EntriesOf(lib, Raws(own), h)
  {
    hide Answers, RowsFor, TakeTrades, HashDetermined, EntriesOf, NoTies, DistinctAdds, Bound;
    TextIn(lib, text, hashes, q, h);
    BatchIsExactIff(db.takes, db.events, q);
    assert SameTakes(db.takes, db.events, q, text(h));
    PossibleAnswerIff(db, q, text(h), rows);
    SameAsOwnIff(db, q, text(h), rows, own);
    ListOf(lib, text, hashes, db, q, h, rows);
    SameRowsSameEntries(lib, RowsFor(rows, text(h)), own, h);
    if NoTies(own) {
      SameList(db, q, text(h), rows, own);
    }
  }

  lemma TextIn<F>(lib: Library<F>, text: Word -> string, hashes: set<Word>, q: Query, h: Word)
    requires Bound(lib, text, hashes, q) && h in hashes
    ensures text(h) in q.hashes
  {
  }
}
