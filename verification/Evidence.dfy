/**
 The evidence log of one run: an append-only sequence of rows chained by signatures, deduplicated by
 payload signature, and re-read by three loops with different tolerance for damaged rows.
 */
module Evidence {
  import opened Common

  type Payload = map<string, string>

  /** `signature` is None when the stored value is missing or not a string. */
  datatype Record = Record(kind: string, payload: Payload, signature: Option<string>)

  datatype Row = Blank | Malformed | Parsed(rec: Record)

  /** The two uses of the hash, on the kind and the signed fields (and the previous signature). */
  datatype Digest = Digest(flat: (string, Payload) -> string, chained: (string, Payload, string) -> string)

  const GENESIS := "GENESIS"

  ghost predicate CollisionFree(d: Digest) {
    && (forall k, f, p :: d.chained(k, f, p) != GENESIS && d.chained(k, f, p) != "")
    && (forall k, f, p, k', f', p' :: d.chained(k, f, p) == d.chained(k', f', p') ==> k == k' && f == f' && p == p')
    && (forall k, f, k', f' :: d.flat(k, f) == d.flat(k', f') ==> k == k' && f == f')
  }

  function KeyFields(kind: string): Option<set<string>> {
    if kind == "S1.incident" then Some({"issue_number", "service"})
    else if kind == "S2.task_graph" then Some({"task_ids", "types"})
    else if kind == "S4.finding" then Some({"task_id", "finding"})
    else if kind == "RCA.root_cause" then Some({"proximate_cause", "root_cause"})
    else if kind == "S3.recovery_plan" then Some({"option_ids"})
    else if kind == "S5.execution" then Some({"option_id", "summary"})
    else if kind == "S7.verification" then Some({"verified", "summary"})
    else if kind == "human.approval" then Some({"actor", "option"})
    else if kind == "human.input" then Some({"actor", "text"})
    else None
  }

  /** The fields of a payload that are signed. */
  function Stable(kind: string, payload: Payload): Payload {
    match KeyFields(kind)
    case Some(fields) => map k | k in payload && k in fields :: payload[k]
    case None => map k | k in payload && k !in {"timestamp", "eid", "id", "run_id"} :: payload[k]
  }

  // ---- The signed content, field by field ----

  predicate AgreeAt(p: Payload, q: Payload, f: string) {
    (f in p <==> f in q) && (f in p ==> p[f] == q[f])
  }

  /** The payloads agree in two fields, in presence and in value. */
  predicate AgreeAtBoth(p: Payload, q: Payload, f: string, g: string) {
    AgreeAt(p, q, f) && AgreeAt(p, q, g)
  }

  ghost predicate AgreeElsewhere(p: Payload, q: Payload) {
    forall f :: f != "timestamp" && f != "eid" && f != "id" && f != "run_id" ==> AgreeAt(p, q, f)
  }

  /** What a signature of a kind protects: one or two named fields, or everything that is not volatile. */
  ghost predicate SameContent(kind: string, p: Payload, q: Payload) {
    if kind == "S1.incident" then AgreeAtBoth(p, q, "issue_number", "service")
    else if kind == "S2.task_graph" then AgreeAtBoth(p, q, "task_ids", "types")
    else if kind == "S4.finding" then AgreeAtBoth(p, q, "task_id", "finding")
    else if kind == "RCA.root_cause" then AgreeAtBoth(p, q, "proximate_cause", "root_cause")
    else if kind == "S3.recovery_plan" then AgreeAt(p, q, "option_ids")
    else if kind == "S5.execution" then AgreeAtBoth(p, q, "option_id", "summary")
    else if kind == "S7.verification" then AgreeAtBoth(p, q, "verified", "summary")
    else if kind == "human.approval" then AgreeAtBoth(p, q, "actor", "option")
    else if kind == "human.input" then AgreeAtBoth(p, q, "actor", "text")
    else AgreeElsewhere(p, q)
  }

  lemma StableOfFields(kind: string, p: Payload, q: Payload, fields: set<string>)
    requires KeyFields(kind) == Some(fields)
    ensures Stable(kind, p) == Stable(kind, q) <==> forall f :: f in fields ==> AgreeAt(p, q, f)
  {
    var a, b := Stable(kind, p), Stable(kind, q);
    if a == b {
      forall f | f in fields ensures AgreeAt(p, q, f) {
        assert (f in a <==> f in p) && (f in b <==> f in q);
      }
    }
    if forall f :: f in fields ==> AgreeAt(p, q, f) {
      assert a.Keys == b.Keys;
    }
  }

  lemma StableOfOther(kind: string, p: Payload, q: Payload)
    requires KeyFields(kind) == None
    ensures Stable(kind, p) == Stable(kind, q) <==> AgreeElsewhere(p, q)
  {
    var a, b := Stable(kind, p), Stable(kind, q);
    if a == b {
      forall f | f != "timestamp" && f != "eid" && f != "id" && f != "run_id" ensures AgreeAt(p, q, f) {
        assert (f in a <==> f in p) && (f in b <==> f in q);
      }
    }
    if AgreeElsewhere(p, q) {
      assert forall f :: f in a ==> AgreeAt(p, q, f);
      assert forall f :: f in b ==> AgreeAt(p, q, f);
      assert a.Keys == b.Keys;
    }
  }

  /** The fields that enter a signature are those that the kind protects. */
  lemma SignedFields(kind: string, p: Payload, q: Payload)
    ensures Stable(kind, p) == Stable(kind, q) <==> SameContent(kind, p, q)
  {
    hide Stable, AgreeAt;
    match KeyFields(kind)
    case Some(fields) => StableOfFields(kind, p, q, fields);
    case None => StableOfOther(kind, p, q);
  }

  function PayloadSignature(d: Digest, kind: string, payload: Payload): string {
    d.flat(kind, Stable(kind, payload))
  }

  function ChainSignature(d: Digest, kind: string, payload: Payload, prev: string): string {
    d.chained(kind, Stable(kind, payload), prev)
  }

  predicate Signed(r: Record) {
    r.signature.Some? && r.signature.value != ""
  }

  // ---- What a valid log is ----

  function Tip(recs: seq<Record>): string {
    if recs != [] && recs[|recs|-1].signature.Some? then recs[|recs|-1].signature.value else GENESIS
  }

  predicate Links(d: Digest, r: Record, prev: string) {
    Signed(r) && r.signature.value == ChainSignature(d, r.kind, r.payload, prev)
  }

  ghost predicate ValidChain(d: Digest, recs: seq<Record>) {
    recs == [] || (ValidChain(d, recs[..|recs|-1]) && Links(d, recs[|recs|-1], Tip(recs[..|recs|-1])))
  }

  ghost function Records(rows: seq<Row>): seq<Record> {
    if rows == [] then [] else
      Records(rows[..|rows|-1]) + (if rows[|rows|-1].Parsed? then [rows[|rows|-1].rec] else [])
  }

  ghost function SignedRecords(rows: seq<Row>): seq<Record> {
    if rows == [] then [] else
      SignedRecords(rows[..|rows|-1]) +
      (if rows[|rows|-1].Parsed? && Signed(rows[|rows|-1].rec) then [rows[|rows|-1].rec] else [])
  }

  ghost function Signatures(d: Digest, recs: seq<Record>): set<string> {
    set r | r in recs :: PayloadSignature(d, r.kind, r.payload)
  }

  lemma {:induction false} PrefixIsValid(d: Digest, recs: seq<Record>, n: nat)
    requires ValidChain(d, recs) && n <= |recs|
    ensures ValidChain(d, recs[..n])
  {
    if n < |recs| {
      PrefixIsValid(d, recs[..|recs|-1], n);
      assert recs[..|recs|-1][..n] == recs[..n];
    } else {
      assert recs[..n] == recs;
    }
  }

  lemma AppendRecord(d: Digest, recs: seq<Record>, r: Record)
    ensures ValidChain(d, recs + [r]) <==> ValidChain(d, recs) && Links(d, r, Tip(recs))
    ensures Tip(recs + [r]) == if r.signature.Some? then r.signature.value else GENESIS
    ensures Signatures(d, recs + [r]) == Signatures(d, recs) + {PayloadSignature(d, r.kind, r.payload)}
  {
    assert (recs + [r])[..|recs + [r]|-1] == recs;
  }

  /** The records of a prefix of the rows are a prefix of the records. */
  lemma {:induction false} RecordsOfPrefix(rows: seq<Row>, n: nat)
    requires n <= |rows|
    ensures Records(rows[..n]) <= Records(rows) && SignedRecords(rows[..n]) <= SignedRecords(rows)
  {
    if n < |rows| {
      RecordsOfPrefix(rows[..|rows|-1], n);
      assert rows[..|rows|-1][..n] == rows[..n];
    } else {
      assert rows[..n] == rows;
    }
  }

  lemma BrokenPrefix(d: Digest, rows: seq<Row>, n: nat)
    requires n <= |rows|
    ensures !ValidChain(d, Records(rows[..n])) ==> !ValidChain(d, Records(rows))
    ensures !ValidChain(d, SignedRecords(rows[..n])) ==> !ValidChain(d, SignedRecords(rows))
  {
    hide ValidChain, Records, SignedRecords;
    RecordsOfPrefix(rows, n);
    var a, b := Records(rows[..n]), SignedRecords(rows[..n]);
    assert a == Records(rows)[..|a|] && b == SignedRecords(rows)[..|b|];
    if ValidChain(d, Records(rows)) {
      PrefixIsValid(d, Records(rows), |a|);
    }
    if ValidChain(d, SignedRecords(rows)) {
      PrefixIsValid(d, SignedRecords(rows), |b|);
    }
  }

  lemma NextRow(rows: seq<Row>, i: nat)
    requires i < |rows|
    ensures Records(rows[..i+1]) == Records(rows[..i]) + (if rows[i].Parsed? then [rows[i].rec] else [])
    ensures SignedRecords(rows[..i+1]) ==
            SignedRecords(rows[..i]) + (if rows[i].Parsed? && Signed(rows[i].rec) then [rows[i].rec] else [])
  {
    assert rows[..i+1][..|rows[..i+1]|-1] == rows[..i];
  }

  // ---- The three readers ----

  /** Rebuilds the duplicate index; fails on the first unsigned or unlinked record, skips malformed rows. */
  method Load(d: Digest, rows: seq<Row>) returns (ok: bool, index: set<string>, last: string)
    ensures ok <==> ValidChain(d, Records(rows))
    ensures ok ==> index == Signatures(d, Records(rows)) && last == Tip(Records(rows))
  {
    index, last := {}, GENESIS;
    for i := 0 to |rows|
      invariant ValidChain(d, Records(rows[..i]))
      invariant index == Signatures(d, Records(rows[..i])) && last == Tip(Records(rows[..i]))
    {
      hide ValidChain, Records, SignedRecords, Signatures;
      NextRow(rows, i);
      BrokenPrefix(d, rows, i + 1);
      if rows[i].Parsed? {
        var rec := rows[i].rec;
        AppendRecord(d, Records(rows[..i]), rec);
        index := index + {PayloadSignature(d, rec.kind, rec.payload)};
        if !Signed(rec) {
          return false, index, last;
        }
        if rec.signature.value != ChainSignature(d, rec.kind, rec.payload, last) {
          return false, index, last;
        }
        last := rec.signature.value;
      } else {
        assert Records(rows[..i+1]) == Records(rows[..i]);
      }
    }
    assert rows[..|rows|] == rows;
    ok := true;
  }

  /** Serves the records; skips malformed rows and unsigned records, fails on the first broken link. */
  method List(d: Digest, rows: seq<Row>) returns (records: Option<seq<Record>>)
    ensures records.Some? <==> ValidChain(d, SignedRecords(rows))
    ensures records.Some? ==> records.value == SignedRecords(rows)
  {
    var out: seq<Record>, prev := [], GENESIS;
    for i := 0 to |rows|
      invariant ValidChain(d, SignedRecords(rows[..i]))
      invariant out == SignedRecords(rows[..i]) && prev == Tip(out)
    {
      hide ValidChain, Records, SignedRecords, Signatures;
      NextRow(rows, i);
      BrokenPrefix(d, rows, i + 1);
      if rows[i].Parsed? && Signed(rows[i].rec) {
        var rec := rows[i].rec;
        AppendRecord(d, out, rec);
        if rec.signature.value != ChainSignature(d, rec.kind, rec.payload, prev) {
          return None;
        }
        out := out + [rec];
        prev := rec.signature.value;
      } else {
        assert SignedRecords(rows[..i+1]) == SignedRecords(rows[..i]);
      }
    }
    assert rows[..|rows|] == rows;
    records := Some(out);
  }

  ghost predicate NoMalformed(rows: seq<Row>) {
    forall i :: 0 <= i < |rows| ==> !rows[i].Malformed?
  }

  datatype Defect = MissingFile | MalformedAt(row: nat) | UnsignedAt(row: nat) | BrokenAt(row: nat)

  /** The signature of the last signed record of the rows. */
  function LastSignature(rows: seq<Row>): string {
    if rows == [] then GENESIS
    else
      var last := rows[|rows|-1];
      if last.Parsed? && Signed(last.rec) then last.rec.signature.value else LastSignature(rows[..|rows|-1])
  }

  /** The defect of row `i`, if it has one. */
  function DefectAt(d: Digest, rows: seq<Row>, i: nat): seq<Defect>
    requires i < |rows|
  {
    match rows[i]
    case Blank => []
    case Malformed => [MalformedAt(i)]
    case Parsed(rec) =>
      if !Signed(rec) then [UnsignedAt(i)]
      else if Links(d, rec, LastSignature(rows[..i])) then []
      else [BrokenAt(i)]
  }

  /** All defects, in the order of the rows. */
  function Defects(d: Digest, rows: seq<Row>, n: nat): seq<Defect>
    requires n <= |rows|
  {
    if n == 0 then [] else Defects(d, rows, n - 1) + DefectAt(d, rows, n - 1)
  }

  /** The audit: reads to the end and reports every defect. */
  method Verify(d: Digest, log: Option<seq<Row>>) returns (valid: bool, defects: seq<Defect>)
    ensures valid <==> log.Some? && NoMalformed(log.value) && ValidChain(d, Records(log.value))
    ensures valid <==> defects == []
    ensures defects == if log.None? then [MissingFile] else Defects(d, log.value, |log.value|)
  {
    if log.None? {
      return false, [MissingFile];
    }
    var rows, prev := log.value, GENESIS;
    defects := [];
    for i := 0 to |rows|
      invariant defects == Defects(d, rows, i) && prev == LastSignature(rows[..i])
    {
      assert rows[..i+1][..i] == rows[..i];
      match rows[i] {
        case Blank =>
        case Malformed => defects := defects + [MalformedAt(i)];
        case Parsed(rec) =>
          if !Signed(rec) {
            defects := defects + [UnsignedAt(i)];
          } else {
            if rec.signature.value != ChainSignature(d, rec.kind, rec.payload, prev) {
              defects := defects + [BrokenAt(i)];
            }
            prev := rec.signature.value;
          }
      }
    }
    valid := defects == [];
    NoDefects(d, rows, |rows|);
    assert rows[..|rows|] == rows;
  }

  /** A log has no defect exactly if no row is malformed and the parsed rows form a valid chain. */
  lemma {:induction false} NoDefects(d: Digest, rows: seq<Row>, n: nat)
    requires n <= |rows|
    ensures Defects(d, rows, n) == [] <==> NoMalformed(rows[..n]) && ValidChain(d, Records(rows[..n]))
    ensures Defects(d, rows, n) == [] ==> LastSignature(rows[..n]) == Tip(Records(rows[..n]))
  {
    if n > 0 {
      hide ValidChain, Records, SignedRecords, Signatures, Stable;
      NoDefects(d, rows, n - 1);
      NextRow(rows, n - 1);
      assert rows[..n] == rows[..n-1] + [rows[n-1]] && rows[..n][..n-1] == rows[..n-1];
      if rows[n-1].Parsed? {
        AppendRecord(d, Records(rows[..n-1]), rows[n-1].rec);
      } else {
        assert Records(rows[..n-1]) + [] == Records(rows[..n-1]);
      }
    } else {
      EmptyLog(d);
    }
  }

  /** Each kind of defect is reported for exactly the rows that have it. */
  lemma {:induction false} DefectsAreReported(d: Digest, rows: seq<Row>, n: nat, i: nat)
    requires n <= |rows|
    ensures MalformedAt(i) in Defects(d, rows, n) <==> i < n && rows[i].Malformed?
    ensures UnsignedAt(i) in Defects(d, rows, n) <==> i < n && rows[i].Parsed? && !Signed(rows[i].rec)
    ensures BrokenAt(i) in Defects(d, rows, n) <==>
      i < n && rows[i].Parsed? && Signed(rows[i].rec) && !Links(d, rows[i].rec, LastSignature(rows[..i]))
    ensures |Defects(d, rows, n)| <= n
  {
    hide ChainSignature, LastSignature;
    if n > 0 {
      DefectsAreReported(d, rows, n - 1, i);
    }
  }

  lemma {:induction false} ValidMeansSigned(d: Digest, recs: seq<Record>)
    requires ValidChain(d, recs)
    ensures forall r :: r in recs ==> Signed(r)
  {
    if recs != [] {
      ValidMeansSigned(d, recs[..|recs|-1]);
      assert recs == recs[..|recs|-1] + [recs[|recs|-1]];
    }
  }

  lemma {:induction false} AllSigned(rows: seq<Row>)
    requires forall r :: r in Records(rows) ==> Signed(r)
    ensures SignedRecords(rows) == Records(rows)
  {
    if rows != [] {
      assert forall r :: r in Records(rows[..|rows|-1]) ==> r in Records(rows);
      assert rows[|rows|-1].Parsed? ==> rows[|rows|-1].rec in Records(rows);
      AllSigned(rows[..|rows|-1]);
    }
  }

  /**
   How the readers relate: loading succeeds exactly when listing succeeds and no record is unsigned, and
   the list is then every parsed record. (Verification asks for no malformed row on top of that.)
   */
  lemma LoadIffListAndAllSigned(d: Digest, rows: seq<Row>)
    ensures ValidChain(d, Records(rows)) <==>
            ValidChain(d, SignedRecords(rows)) && forall r :: r in Records(rows) ==> Signed(r)
    ensures ValidChain(d, Records(rows)) ==> SignedRecords(rows) == Records(rows)
  {
    if ValidChain(d, Records(rows)) {
      ValidMeansSigned(d, Records(rows));
    }
    if forall r :: r in Records(rows) ==> Signed(r) {
      AllSigned(rows);
    }
  }

  /** The readers do disagree: one unsigned record stops every later append but not the listing. */
  lemma UnsignedRecordSplitsReaders(d: Digest, kind: string, payload: Payload)
    ensures var rows := [Parsed(Record(kind, payload, None))];
      ValidChain(d, SignedRecords(rows)) && !ValidChain(d, Records(rows))
  {
    var rows := [Parsed(Record(kind, payload, None))];
    assert rows[..0] == [];
    assert SignedRecords(rows) == [] && Records(rows) == [rows[0].rec];
  }

  // ---- Tamper evidence ----

  ghost predicate SameHistory(a: seq<Record>, b: seq<Record>) {
    |a| == |b| && forall i :: 0 <= i < |a| ==>
      a[i].kind == b[i].kind && SameContent(a[i].kind, a[i].payload, b[i].payload)
  }

  /** The last signature determines the whole history of kinds and signed fields. */
  lemma {:induction false} TipDeterminesHistory(d: Digest, a: seq<Record>, b: seq<Record>)
    requires CollisionFree(d) && ValidChain(d, a) && ValidChain(d, b) && Tip(a) == Tip(b)
    ensures SameHistory(a, b)
  {
    hide CollisionFree, Stable, SameContent, ChainSignature, SameHistory;
    if a != [] && b != [] {
      SameSignatureSameInputs(d, a[|a|-1], Tip(a[..|a|-1]), b[|b|-1], Tip(b[..|b|-1]));
      TipDeterminesHistory(d, a[..|a|-1], b[..|b|-1]);
      HistoryGrows(a, b);
    } else if a != [] {
      NeverGenesis(d, a[|a|-1], Tip(a[..|a|-1]));
    } else if b != [] {
      NeverGenesis(d, b[|b|-1], Tip(b[..|b|-1]));
    } else {
      NoHistory();
    }
  }

  lemma NoHistory()
    ensures SameHistory([], [])
  {
  }

  lemma HistoryGrows(a: seq<Record>, b: seq<Record>)
    requires a != [] && b != [] && SameHistory(a[..|a|-1], b[..|b|-1])
    requires a[|a|-1].kind == b[|b|-1].kind
    requires SameContent(a[|a|-1].kind, a[|a|-1].payload, b[|b|-1].payload)
    ensures SameHistory(a, b)
  {
    hide Stable, SameContent;
    var m, n := |a| - 1, |b| - 1;
    forall i | 0 <= i < m
      ensures a[i].kind == b[i].kind && SameContent(a[i].kind, a[i].payload, b[i].payload)
    {
      assert a[..m][i] == a[i] && b[..n][i] == b[i];
    }
  }

  lemma SameSignatureSameInputs(d: Digest, r: Record, prev: string, r': Record, prev': string)
    requires CollisionFree(d) && Links(d, r, prev) && Links(d, r', prev') && r.signature == r'.signature
    ensures r.kind == r'.kind && SameContent(r.kind, r.payload, r'.payload) && prev == prev'
  {
    assert d.chained(r.kind, Stable(r.kind, r.payload), prev) == d.chained(r'.kind, Stable(r'.kind, r'.payload), prev');
    SignedFields(r.kind, r.payload, r'.payload);
  }

  lemma NeverGenesis(d: Digest, r: Record, prev: string)
    requires CollisionFree(d) && Links(d, r, prev)
    ensures r.signature != Some(GENESIS)
  {
    assert d.chained(r.kind, Stable(r.kind, r.payload), prev) != GENESIS;
  }

  /** Deleting an interior record is detected; cutting off the end is not, every prefix still verifies. */
  lemma DeletionDetectedIff(d: Digest, recs: seq<Record>, i: nat)
    requires CollisionFree(d) && ValidChain(d, recs) && i < |recs|
    ensures ValidChain(d, recs[..i] + recs[i+1..]) <==> i == |recs| - 1
  {
    hide ValidChain, CollisionFree;
    var cut := recs[..i] + recs[i+1..];
    if i == |recs| - 1 {
      assert cut == recs[..i];
      PrefixIsValid(d, recs, i);
    } else if ValidChain(d, cut) {
      assert cut[|cut|-1] == recs[|recs|-1];
      TipDeterminesHistory(d, cut, recs);
    }
  }

  /** Editing one record under its old signature is detected exactly when a signed field or the kind changes. */
  lemma EditUndetectedIff(d: Digest, recs: seq<Record>, i: nat, kind: string, payload: Payload)
    requires CollisionFree(d) && ValidChain(d, recs) && i < |recs|
    ensures ValidChain(d, recs[i := Record(kind, payload, recs[i].signature)]) <==>
            kind == recs[i].kind && SameContent(kind, payload, recs[i].payload)
  {
    hide ValidChain, CollisionFree, Stable, SameContent;
    var edited := recs[i := Record(kind, payload, recs[i].signature)];
    if ValidChain(d, edited) {
      TipDeterminesHistory(d, edited, recs);
      assert edited[i].kind == recs[i].kind;
    }
    if kind == recs[i].kind && SameContent(kind, payload, recs[i].payload) {
      UnsignedEditKeepsChain(d, recs, i, payload);
    }
  }

  lemma {:induction false} UnsignedEditKeepsChain(d: Digest, recs: seq<Record>, i: nat, payload: Payload)
    requires ValidChain(d, recs) && i < |recs|
    requires SameContent(recs[i].kind, payload, recs[i].payload)
    ensures ValidChain(d, recs[i := recs[i].(payload := payload)])
  {
    SignedFields(recs[i].kind, payload, recs[i].payload);
    var init := recs[..|recs|-1];
    var edited := recs[i := recs[i].(payload := payload)];
    if i < |recs| - 1 {
      UnsignedEditKeepsChain(d, init, i, payload);
      assert edited[..|recs|-1] == init[i := init[i].(payload := payload)];
    } else {
      assert edited[..|recs|-1] == init;
    }
  }

  /** Swapping two different records is detected, whichever they are. */
  lemma SwapDetected(d: Digest, recs: seq<Record>, i: nat, j: nat)
    requires CollisionFree(d) && ValidChain(d, recs) && i < j < |recs|
    ensures !ValidChain(d, recs[i := recs[j]][j := recs[i]])
  {
    hide ValidChain, CollisionFree, Stable, SameContent;
    var swapped := recs[i := recs[j]][j := recs[i]];
    if ValidChain(d, swapped) {
      // both logs have a record with the signature of recs[j], at positions j and i
      PrefixIsValid(d, recs, j + 1);
      PrefixIsValid(d, swapped, i + 1);
      assert recs[..j+1][|recs[..j+1]|-1] == recs[j] && swapped[..i+1][|swapped[..i+1]|-1] == recs[j];
      ValidMeansSigned(d, recs);
      TipDeterminesHistory(d, recs[..j+1], swapped[..i+1]);
    }
  }

  /** A signature determines everything up to the record that carries it: one log's prefix is the other log. */
  lemma SignatureDeterminesPrefix(d: Digest, recs: seq<Record>, other: seq<Record>, j: nat)
    requires CollisionFree(d) && ValidChain(d, recs) && ValidChain(d, other) && j < |recs|
    requires other != [] && other[|other|-1].signature == recs[j].signature
    ensures |other| == j + 1 && SameHistory(other, recs[..j+1])
  {
    hide ValidChain, CollisionFree, Stable, SameContent;
    PrefixIsValid(d, recs, j + 1);
    ValidMeansSigned(d, recs);
    assert recs[j] in recs && recs[..j+1][|recs[..j+1]|-1] == recs[j];
    TipDeterminesHistory(d, other, recs[..j+1]);
  }

  /** Inserting a record, whatever it claims, is detected unless it is a properly linked record at the end. */
  lemma InsertionUndetectedIff(d: Digest, recs: seq<Record>, i: nat, x: Record)
    requires CollisionFree(d) && ValidChain(d, recs) && i <= |recs|
    ensures ValidChain(d, recs[..i] + [x] + recs[i..]) <==> i == |recs| && Links(d, x, Tip(recs))
  {
    hide ValidChain, CollisionFree, Stable, SameContent, Links;
    var longer := recs[..i] + [x] + recs[i..];
    if i == |recs| {
      assert longer == recs + [x];
      AppendRecord(d, recs, x);
    } else if ValidChain(d, longer) {
      SignatureDeterminesPrefix(d, recs, longer, |recs| - 1);
    }
  }

  /** Of all arrangements of the records of a valid log, only the log itself is valid. */
  lemma ReorderingDetected(d: Digest, recs: seq<Record>, other: seq<Record>)
    requires CollisionFree(d) && ValidChain(d, recs) && ValidChain(d, other)
    requires multiset(other) == multiset(recs)
    ensures other == recs
  {
    hide ValidChain, CollisionFree, Stable, SameContent;
    assert |multiset(other)| == |other| && |multiset(recs)| == |recs|;
    forall i | 0 <= i < |other| ensures other[i] == recs[i] {
      assert other[i] in multiset(recs);
      var j :| 0 <= j < |recs| && recs[j] == other[i];
      PrefixIsValid(d, other, i + 1);
      assert other[..i+1][|other[..i+1]|-1] == other[i];
      SignatureDeterminesPrefix(d, recs, other[..i+1], j);
    }
  }

  // ---- Appending ----

  datatype Outcome = Appended | Duplicate | Untrusted | WriteFailed

  function SignedRecord(d: Digest, kind: string, payload: Payload, prev: string): Record {
    Record(kind, payload, Some(ChainSignature(d, kind, payload, prev)))
  }

  function RowsOf(log: Option<seq<Row>>): seq<Row> {
    if log.Some? then log.value else []
  }

  datatype Request = Request(kind: string, payload: Payload, idempotent: bool, diskOk: bool)

  /** One append under the lock: the outcome and the log afterwards. */
  ghost function AppendStep(d: Digest, log: Option<seq<Row>>, q: Request): (Outcome, Option<seq<Row>>) {
    var recs := Records(RowsOf(log));
    if !ValidChain(d, recs) then (Untrusted, log)
    else if q.idempotent && PayloadSignature(d, q.kind, q.payload) in Signatures(d, recs) then (Duplicate, log)
    else if !q.diskOk then (WriteFailed, log)
    else (Appended, Some(RowsOf(log) + [Parsed(SignedRecord(d, q.kind, q.payload, Tip(recs)))]))
  }

  /** The file shared by every store of the run; None while it does not exist. */
  class LogFile {
    var content: Option<seq<Row>>

    constructor ()
      ensures content == None
    {
      content := None;
    }
  }

  class EvidenceStore {
    const file: LogFile
    var index: set<string>
    var lastSignature: Option<string>

    constructor (file: LogFile)
      ensures this.file == file
    {
      this.file := file;
      index, lastSignature := {}, None;
    }

    /** Refreshes from the shared file first, so what another store wrote in between is seen. */
    method Append(d: Digest, q: Request) returns (outcome: Outcome)
      modifies this, file
      ensures (outcome, file.content) == AppendStep(d, old(file.content), q)
      ensures outcome.Appended? ==>
        index == Signatures(d, Records(RowsOf(file.content)))
          && lastSignature == Some(Tip(Records(RowsOf(file.content))))
    {
      hide ValidChain, Records, SignedRecords, Signatures;
      index, lastSignature := {}, None;
      var rows := RowsOf(file.content);
      EmptyLog(d);
      if file.content.Some? {
        var ok, seen, last := Load(d, rows);
        index := seen;
        if !ok {
          return Untrusted;
        }
        lastSignature := Some(last);
      }
      var sigPayload := PayloadSignature(d, q.kind, q.payload);
      if q.idempotent && sigPayload in index {
        return Duplicate;
      }
      var prev := if lastSignature.Some? then lastSignature.value else GENESIS;
      if !q.diskOk {
        return WriteFailed;
      }
      var rec := SignedRecord(d, q.kind, q.payload, prev);
      file.content := Some(rows + [Parsed(rec)]);
      index := index + {sigPayload};
      lastSignature := rec.signature;
      RowAppended(rows, Parsed(rec));
      AppendRecord(d, Records(rows), rec);
      return Appended;
    }
  }

  lemma EmptyLog(d: Digest)
    ensures Records([]) == [] && ValidChain(d, []) && Signatures(d, []) == {} && Tip([]) == "GENESIS"
  {
  }

  lemma RowAppended(rows: seq<Row>, row: Row)
    ensures Records(rows + [row]) == Records(rows) + (if row.Parsed? then [row.rec] else [])
    ensures SignedRecords(rows + [row]) ==
      SignedRecords(rows) + (if row.Parsed? && Signed(row.rec) then [row.rec] else [])
  {
    assert (rows + [row])[..|rows|] == rows;
  }

  // ---- Any interleaving of stores that share the log ----

  ghost function Run(d: Digest, log: Option<seq<Row>>, requests: seq<Request>): Option<seq<Row>>
    decreases |requests|
  {
    if requests == [] then log else Run(d, AppendStep(d, log, requests[0]).1, requests[1..])
  }

  ghost predicate Trusted(d: Digest, log: Option<seq<Row>>) {
    ValidChain(d, Records(RowsOf(log)))
  }

  ghost predicate DistinctSignatures(d: Digest, recs: seq<Record>) {
    forall i, j :: 0 <= i < j < |recs| ==>
      PayloadSignature(d, recs[i].kind, recs[i].payload) != PayloadSignature(d, recs[j].kind, recs[j].payload)
  }

  /** Some record has the kind and the signed fields of the payload; the other fields may differ. */
  ghost predicate Represented(recs: seq<Record>, kind: string, payload: Payload) {
    exists r :: r in recs && r.kind == kind && SameContent(kind, r.payload, payload)
  }

  /** Some record has the kind and the whole payload. */
  ghost predicate Stored(recs: seq<Record>, kind: string, payload: Payload) {
    exists r :: r in recs && r.kind == kind && r.payload == payload
  }

  lemma RepresentedIff(d: Digest, recs: seq<Record>, kind: string, payload: Payload)
    requires CollisionFree(d)
    ensures Represented(recs, kind, payload) <==> PayloadSignature(d, kind, payload) in Signatures(d, recs)
  {
    hide Stable, SameContent;
    if PayloadSignature(d, kind, payload) in Signatures(d, recs) {
      var r :| r in recs && PayloadSignature(d, r.kind, r.payload) == PayloadSignature(d, kind, payload);
      assert r.kind == kind && Stable(r.kind, r.payload) == Stable(kind, payload);
      SignedFields(kind, r.payload, payload);
    }
    if Represented(recs, kind, payload) {
      var r :| r in recs && r.kind == kind && SameContent(kind, r.payload, payload);
      SignedFields(kind, r.payload, payload);
    }
  }

  /** A new append extends the listing by exactly one record; every other outcome leaves the log alone. */
  lemma AppendExtendsList(d: Digest, log: Option<seq<Row>>, q: Request)
    requires CollisionFree(d) && Trusted(d, log)
    ensures var (outcome, log') := AppendStep(d, log, q);
      && Trusted(d, log') && outcome != Untrusted
      && (outcome.Appended? ==>
           SignedRecords(RowsOf(log')) ==
             SignedRecords(RowsOf(log)) + [SignedRecord(d, q.kind, q.payload, Tip(Records(RowsOf(log))))])
      && (!outcome.Appended? ==> log' == log)
      && (outcome.Appended? || outcome.Duplicate? ==>
           Represented(Records(RowsOf(log')), q.kind, q.payload))
      && (outcome.Appended? ==> Stored(Records(RowsOf(log')), q.kind, q.payload))
      && (q.idempotent && DistinctSignatures(d, Records(RowsOf(log))) ==> DistinctSignatures(d, Records(RowsOf(log'))))
  {
    hide ValidChain, Records, SignedRecords;
    var rows := RowsOf(log);
    var rec := SignedRecord(d, q.kind, q.payload, Tip(Records(rows)));
    RowAppended(rows, Parsed(rec));
    AppendRecord(d, Records(rows), rec);
    assert Signed(rec) && rec in Records(rows) + [rec];
    RepresentedIff(d, Records(RowsOf(AppendStep(d, log, q).1)), q.kind, q.payload);
  }

  lemma {:induction false} PayloadStaysPresent(d: Digest, log: Option<seq<Row>>, requests: seq<Request>,
                                              kind: string, payload: Payload)
    requires CollisionFree(d) && Trusted(d, log) && Represented(Records(RowsOf(log)), kind, payload)
    ensures Represented(Records(RowsOf(Run(d, log, requests))), kind, payload)
    decreases |requests|
  {
    hide ValidChain, Records, SignedRecords, Stable, SameContent;
    if requests != [] {
      var log' := AppendStep(d, log, requests[0]).1;
      AppendExtendsList(d, log, requests[0]);
      if log' != log {
        RowAppended(RowsOf(log), RowsOf(log')[|RowsOf(log)|]);
        var r :| r in Records(RowsOf(log)) && r.kind == kind && SameContent(kind, r.payload, payload);
        assert r in Records(RowsOf(log'));
      }
      PayloadStaysPresent(d, log', requests[1..], kind, payload);
    }
  }

  /**
   Over any interleaving of stores: the log stays trusted, deduplicating stores never write the same signed
   fields twice, and for every append with a working disk, written or skipped, a record with the kind and the
   signed fields of its payload is in the log at the end.
   */
  lemma {:induction false} StoresShareOneChain(d: Digest, log: Option<seq<Row>>, requests: seq<Request>)
    requires CollisionFree(d) && Trusted(d, log)
    ensures Trusted(d, Run(d, log, requests))
    ensures (forall q :: q in requests ==> q.idempotent) && DistinctSignatures(d, Records(RowsOf(log))) ==>
            DistinctSignatures(d, Records(RowsOf(Run(d, log, requests))))
    ensures forall i :: 0 <= i < |requests| && requests[i].diskOk ==>
            Represented(Records(RowsOf(Run(d, log, requests))), requests[i].kind, requests[i].payload)
    decreases |requests|
  {
    hide ValidChain, Records, SignedRecords, Signatures, PayloadSignature, DistinctSignatures, Represented, Stored;
    if requests != [] {
      var q := requests[0];
      var log' := AppendStep(d, log, q).1;
      AppendExtendsList(d, log, q);
      StoresShareOneChain(d, log', requests[1..]);
      assert forall p :: p in requests[1..] ==> p in requests;
      if q.diskOk {
        PayloadStaysPresent(d, log', requests[1..], q.kind, q.payload);
      }
      forall i | 0 <= i < |requests| && requests[i].diskOk
        ensures Represented(Records(RowsOf(Run(d, log, requests))), requests[i].kind, requests[i].payload)
      {
        if i > 0 {
          assert requests[1..][i-1] == requests[i];
        }
      }
    }
  }

  /** Exactly when an append is dropped: a record of the same kind already has the same signed fields. */
  lemma DuplicateIff(d: Digest, log: Option<seq<Row>>, q: Request)
    requires CollisionFree(d) && Trusted(d, log)
    ensures AppendStep(d, log, q).0.Duplicate? <==>
            q.idempotent && Represented(Records(RowsOf(log)), q.kind, q.payload)
  {
    hide ValidChain, Records, Stable, SameContent;
    RepresentedIff(d, Records(RowsOf(log)), q.kind, q.payload);
  }

  /**
   Exactly when an append that reaches the disk loses its payload: a record of the same kind agrees with it in
   the signed fields, and none agrees in all fields.
   */
  lemma PayloadLostIff(d: Digest, log: Option<seq<Row>>, q: Request)
    requires CollisionFree(d) && Trusted(d, log) && q.diskOk
    ensures !Stored(Records(RowsOf(AppendStep(d, log, q).1)), q.kind, q.payload) <==>
            && q.idempotent && Represented(Records(RowsOf(log)), q.kind, q.payload)
            && !Stored(Records(RowsOf(log)), q.kind, q.payload)
  {
    hide ValidChain, Records, SignedRecords, Stable, SameContent;
    DuplicateIff(d, log, q);
    var recs := Records(RowsOf(log));
    var rec := SignedRecord(d, q.kind, q.payload, Tip(recs));
    RowAppended(RowsOf(log), Parsed(rec));
    assert rec in recs + [rec];
  }

  /** Which outcome an append has, in all cases: trust first, then deduplication, then the disk. */
  lemma OutcomeIff(d: Digest, log: Option<seq<Row>>, q: Request)
    requires CollisionFree(d)
    ensures var outcome := AppendStep(d, log, q).0;
      var known := q.idempotent && Represented(Records(RowsOf(log)), q.kind, q.payload);
      && (outcome == Untrusted <==> !ValidChain(d, Records(RowsOf(log))))
      && (outcome == Duplicate <==> ValidChain(d, Records(RowsOf(log))) && known)
      && (outcome == WriteFailed <==> ValidChain(d, Records(RowsOf(log))) && !known && !q.diskOk)
  {
    hide ValidChain, Records, Represented;
    RepresentedIff(d, Records(RowsOf(log)), q.kind, q.payload);
  }

  /** Distinct signatures are distinct contents: no two records of a kind agree in what it protects. */
  lemma DistinctContents(d: Digest, recs: seq<Record>)
    requires CollisionFree(d)
    ensures DistinctSignatures(d, recs) <==>
            forall i, j :: 0 <= i < j < |recs| && recs[i].kind == recs[j].kind ==>
              !SameContent(recs[i].kind, recs[i].payload, recs[j].payload)
  {
    hide Stable, SameContent;
    forall i, j | 0 <= i < j < |recs|
      ensures PayloadSignature(d, recs[i].kind, recs[i].payload) == PayloadSignature(d, recs[j].kind, recs[j].payload)
        <==> recs[i].kind == recs[j].kind && SameContent(recs[i].kind, recs[i].payload, recs[j].payload)
    {
      SignedFields(recs[i].kind, recs[i].payload, recs[j].payload);
    }
  }

  // ---- Kinds whose key fields are not in the payload the orchestrator writes ----

  const PLAN_FIELDS :=
    {"options", "recommended_option", "confidence", "requires_business_input", "business_input_question"}
  const GRAPH_FIELDS := {"tasks"}

  /** A payload without any key field of its kind: nothing of it is signed. */
  predicate Unkeyed(kind: string, payload: Payload) {
    KeyFields(kind).Some? && payload.Keys !! KeyFields(kind).value
  }

  /** Of the payloads without a key field, a log keeps the first of each kind, whatever the later ones say. */
  lemma UnkeyedKeptOnce(d: Digest, log: Option<seq<Row>>, kind: string, payload: Payload)
    requires CollisionFree(d) && Trusted(d, log) && Unkeyed(kind, payload)
    requires forall r :: r in Records(RowsOf(log)) && r.kind == kind ==> Unkeyed(kind, r.payload)
    ensures AppendStep(d, log, Request(kind, payload, true, true)).0.Duplicate? <==>
            exists r :: r in Records(RowsOf(log)) && r.kind == kind
  {
    hide ValidChain, Records;
    DuplicateIff(d, log, Request(kind, payload, true, true));
    assert Stable(kind, payload) == map[];
    forall r | r in Records(RowsOf(log)) && r.kind == kind ensures Stable(r.kind, r.payload) == map[] {
    }
  }

  /**
   A recovery plan is written with the fields of the plan and a task graph as its list of tasks; neither has a
   key field of its kind. Every later one is taken for a duplicate of the first, and edits go unnoticed.
   */
  lemma LaterPlansAreDropped(d: Digest, log: Option<seq<Row>>, first: Record, payload: Payload)
    requires Trusted(d, log) && first in Records(RowsOf(log)) && first.payload.Keys == payload.Keys
    requires || (first.kind == "S3.recovery_plan" && payload.Keys == PLAN_FIELDS)
             || (first.kind == "S2.task_graph" && payload.Keys == GRAPH_FIELDS)
    ensures Unkeyed(first.kind, payload)
    ensures AppendStep(d, log, Request(first.kind, payload, true, true)) == (Duplicate, log)
  {
    assert Stable(first.kind, first.payload) == map[] == Stable(first.kind, payload);
  }
}
