/** The import API of api.go at the level of outcomes: the decision the
    authentication middleware takes on the Authorization header and the token
    table, the listing of unimported entries, and the batch that marks entries
    as imported.  A response is the status code, error code and message the
    handler writes, or the data it encodes; the JSON and HTTP plumbing around
    them is not modelled.  As in the store, `fault` parameters say which
    storage calls fail, and `now` is the clock. */
module Api {
  import opened Wrappers
  import opened Store

  datatype ErrorCode = InvalidToken | MissingToken | MissingParams | NoEntriesToImport | FailedFetch

  /** The error codes as they appear on the wire. */
  function CodeText(c: ErrorCode): string {
    match c
    case InvalidToken => "INVALID_TOKEN"
    case MissingToken => "MISSING_TOKEN"
    case MissingParams => "MISSING_PARAMS"
    case NoEntriesToImport => "NO_ENTRIES_TO_IMPORT"
    case FailedFetch => "FAILED_FETCH"
  }

  const StatusOK := 200
  const StatusBadRequest := 400
  const StatusUnauthorized := 401
  const StatusNotFound := 404
  const StatusInternalServerError := 500

  datatype Payload =
    | EntriesPayload(total: int, entries: seq<Entry>)
    | CountsPayload(importedCount: int, remainingCount: int)

  datatype Response =
    | ErrorResponse(status: int, code: ErrorCode, message: string)
    | JsonResponse(status: int, data: Payload)
    | PlainError(status: int, text: string)  // http.Error: a plain-text body
    | NoResponse  // the handler returns without writing anything

  // ---------------------------------------------------------------------
  // The Authorization header
  // ---------------------------------------------------------------------

  /** The position of the first space, if any. */
  function FirstSpace(s: string): (r: Option<nat>)
    ensures r.None? <==> ' ' !in s
    ensures r.Some? ==> r.value < |s| && s[r.value] == ' ' && ' ' !in s[..r.value]
  {
    if s == [] then None
    else if s[0] == ' ' then Some(0)
    else
      match FirstSpace(s[1..])
      case None => None
      case Some(k) =>
        assert s[..k + 1] == [s[0]] + s[1..][..k];
        Some(k + 1)
  }

  /** strings.SplitN(s, " ", 2): the text before the first space and the
      text after it, or the whole text when it holds no space. */
  function SplitFirstSpace(s: string): (parts: seq<string>)
    ensures |parts| == 1 <==> ' ' !in s
    ensures |parts| == 1 ==> parts[0] == s
    ensures |parts| == 2 ==> parts[0] + " " + parts[1] == s && ' ' !in parts[0]
    ensures |parts| == 1 || |parts| == 2
  {
    match FirstSpace(s)
    case None => [s]
    case Some(k) =>
      assert s == s[..k] + " " + s[k + 1..];
      [s[..k], s[k + 1..]]
  }

  /** strings.ToLower, on ASCII letters.  No non-ASCII character lowers to
      a letter of "bearer" (the Kelvin sign U+212A and U+0130 lower to 'k'
      and 'i'), so comparing the result with "bearer" loses nothing by this
      restriction. */
  function LowerChar(c: char): char {
    if 'A' <= c <= 'Z' then (c as int + 32) as char else c
  }

  function ToLowerAscii(s: string): (r: string)
    ensures |r| == |s|
  {
    seq(|s|, i requires 0 <= i < |s| => LowerChar(s[i]))
  }

  datatype HeaderCheck = NoHeader | Malformed | Bearer(secret: string)

  /** The checks on the header before any token lookup. */
  function ParseAuthHeader(header: string): HeaderCheck {
    if header == "" then NoHeader
    else
      var parts := SplitFirstSpace(header);
      if |parts| != 2 || ToLowerAscii(parts[0]) != "bearer" then Malformed
      else Bearer(parts[1])
  }

  /** A scheme spelt "bearer" in any case, one space and a secret is
      accepted, and the secret is everything after that first space. */
  lemma ParseAuthHeaderAccepts(scheme: string, secret: string)
    requires ToLowerAscii(scheme) == "bearer"
    ensures ParseAuthHeader(scheme + " " + secret) == Bearer(secret)
  {
    var header := scheme + " " + secret;
    assert ' ' !in scheme by {
      forall i | 0 <= i < |scheme| ensures scheme[i] != ' ' {
        assert LowerChar(scheme[i]) == "bearer"[i];
      }
    }
    assert header[|scheme|] == ' ';
    var parts := SplitFirstSpace(header);
    assert |parts| == 2;
    assert parts[0] == header[..|scheme|] == scheme;
    assert parts[1] == header[|scheme| + 1..] == secret;
  }

  /** Conversely, an accepted header is a six-letter scheme that lowers to
      "bearer", a space, and the secret. */
  lemma ParseAuthHeaderSound(header: string)
    requires ParseAuthHeader(header).Bearer?
    ensures |header| >= 7 && ToLowerAscii(header[..6]) == "bearer" && header[6] == ' '
    ensures ParseAuthHeader(header).secret == header[7..]
  {
    var parts := SplitFirstSpace(header);
    assert |ToLowerAscii(parts[0])| == 6;
    assert header == parts[0] + " " + parts[1];
    assert header[..6] == parts[0];
    assert header[7..] == parts[1];
  }

  // ---------------------------------------------------------------------
  // AuthMiddleware
  // ---------------------------------------------------------------------

  datatype AuthDecision = Rejected(response: Response) | Accepted(token: ApiToken)

  const MissingTokenResponse := ErrorResponse(StatusUnauthorized, MissingToken, "Authentication token required")
  const BadFormatResponse := ErrorResponse(StatusUnauthorized, InvalidToken, "Invalid Authorization header format")
  const BadTokenResponse := ErrorResponse(StatusUnauthorized, InvalidToken, "Invalid or inactive API token")

  /** The middleware's decision: header checks first, then the lookup of
      the secret's hash, then the token's active flag. */
  function AuthDecide(header: string, tokens: map<string, ApiToken>, hash: string -> string, fault: Fault): AuthDecision {
    match ParseAuthHeader(header)
    case NoHeader => Rejected(MissingTokenResponse)
    case Malformed => Rejected(BadFormatResponse)
    case Bearer(secret) =>
      match TokenLookup(tokens, hash(secret), fault)
      case None => Rejected(BadTokenResponse)
      case Some(token) => if token.isActive then Accepted(token) else Rejected(BadTokenResponse)
  }

  /** A missing header and a malformed one are rejected with their own
      responses, and those decisions do not depend on the token table, the
      hash or the store at all: no lookup is made. */
  lemma HeaderRejectedWithoutLookup(header: string,
                                    tokens1: map<string, ApiToken>, hash1: string -> string, fault1: Fault,
                                    tokens2: map<string, ApiToken>, hash2: string -> string, fault2: Fault)
    requires !ParseAuthHeader(header).Bearer?
    ensures AuthDecide(header, tokens1, hash1, fault1) == AuthDecide(header, tokens2, hash2, fault2)
    ensures header == "" ==> AuthDecide(header, tokens1, hash1, fault1) == Rejected(MissingTokenResponse)
    ensures header != "" ==> AuthDecide(header, tokens1, hash1, fault1) == Rejected(BadFormatResponse)
  {
  }

  /** A request is let through exactly when the header is well formed and
      the hash of its secret names an active token, which is then the token
      handed on. */
  lemma AuthAcceptsExactly(header: string, tokens: map<string, ApiToken>, hash: string -> string, fault: Fault)
    ensures AuthDecide(header, tokens, hash, fault).Accepted? <==>
      && ParseAuthHeader(header).Bearer?
      && fault != QueryFault
      && hash(ParseAuthHeader(header).secret) in tokens
      && tokens[hash(ParseAuthHeader(header).secret)].isActive
    ensures AuthDecide(header, tokens, hash, fault).Accepted? ==>
      AuthDecide(header, tokens, hash, fault).token == tokens[hash(ParseAuthHeader(header).secret)]
    ensures AuthDecide(header, tokens, hash, fault).Rejected? ==>
      AuthDecide(header, tokens, hash, fault).response.status == StatusUnauthorized
  {
  }

  /** An unknown token and an inactive one get the very same response, so
      the response does not tell which tokens exist. */
  lemma UnknownAndInactiveIndistinguishable(header: string, hash: string -> string,
                                            unknown: map<string, ApiToken>, inactive: map<string, ApiToken>)
    requires ParseAuthHeader(header).Bearer?
    requires hash(ParseAuthHeader(header).secret) !in unknown
    requires hash(ParseAuthHeader(header).secret) in inactive
    requires !inactive[hash(ParseAuthHeader(header).secret)].isActive
    ensures AuthDecide(header, unknown, hash, NoFault) == AuthDecide(header, inactive, hash, NoFault)
    ensures AuthDecide(header, unknown, hash, NoFault) == Rejected(BadTokenResponse)
  {
  }

  /** Stamping a token's last use never changes who is let in next, nor
      the response a rejected request gets. */
  lemma TouchKeepsAdmission(header: string, tokens: map<string, ApiToken>, hash: string -> string,
                            fault: Fault, id: int, now: Timestamp)
    ensures AuthDecide(header, TouchTokens(tokens, id, now), hash, fault).Accepted?
        == AuthDecide(header, tokens, hash, fault).Accepted?
    ensures AuthDecide(header, tokens, hash, fault).Rejected? ==>
      AuthDecide(header, TouchTokens(tokens, id, now), hash, fault) == AuthDecide(header, tokens, hash, fault)
  {
  }

  /** The middleware.  The token's last_used update is best effort: its
      failure is only logged and the request goes on. */
  method AuthMiddleware(db: Database, header: string, hash: string -> string,
                        lookupFault: Fault, touchFault: Fault, now: Timestamp)
    returns (decision: AuthDecision)
    requires db.Valid()
    modifies db
    ensures db.Valid() && db.State() == old(db.State())
    ensures decision == AuthDecide(header, old(db.tokens), hash, lookupFault)
    ensures db.tokens == if decision.Accepted? && touchFault != ExecFault
                         then TouchTokens(old(db.tokens), decision.token.id, now)
                         else old(db.tokens)
  {
    if header == "" {
      return Rejected(MissingTokenResponse);
    }
    var parts := SplitFirstSpace(header);
    if |parts| != 2 || ToLowerAscii(parts[0]) != "bearer" {
      return Rejected(BadFormatResponse);
    }
    var token := parts[1];
    assert ParseAuthHeader(header) == Bearer(token);
    var tokenHash := hash(token);
    var apiToken := db.GetApiTokenByHash(tokenHash, lookupFault);
    if apiToken.None? || !apiToken.value.isActive {
      return Rejected(BadTokenResponse);
    }
    decision := Accepted(apiToken.value);
    assert decision == AuthDecide(header, old(db.tokens), hash, lookupFault);
    var _ := db.UpdateApiTokenLastUsed(apiToken.value.id, now, touchFault);
  }

  // ---------------------------------------------------------------------
  // GET /api/entries
  // ---------------------------------------------------------------------

  /** What getUnimportedEntries answers for a table. */
  function ListResponse(t: Table, fault: Fault): Response {
    if fault == QueryFault then
      ErrorResponse(StatusInternalServerError, FailedFetch, "Failed to fetch unimported entries.")
    else
      var u := Unimported(t.entries);
      if |u| == 0 then ErrorResponse(StatusNotFound, NoEntriesToImport, "There are no entries for importing.")
      else JsonResponse(StatusOK, EntriesPayload(|u|, u))
  }

  /** Nothing to import is reported as its own condition, never as an empty
      success; a success lists exactly the unimported rows with their
      number. */
  lemma ListResponseMeaning(t: Table, fault: Fault)
    requires fault != QueryFault
    ensures ListResponse(t, fault).ErrorResponse? <==> forall i :: 0 <= i < |t.entries| ==> t.entries[i].importedAt.Some?
    ensures ListResponse(t, fault).JsonResponse? ==>
      var p := ListResponse(t, fault).data;
      && p.total == |p.entries| > 0
      && forall e :: e in p.entries <==> e in t.entries && e.importedAt.None?
  {
    UnimportedMembers(t.entries);
    UnimportedEmpty(t.entries);
  }

  method GetUnimportedEntries(db: Database, fault: Fault) returns (resp: Response)
    ensures resp == ListResponse(db.State(), fault)
  {
    var entries, err := db.GetUnimportedEntries(fault);
    if err.Some? {
      return ErrorResponse(StatusInternalServerError, FailedFetch, "Failed to fetch unimported entries.");
    }
    if |entries| == 0 {
      return ErrorResponse(StatusNotFound, NoEntriesToImport, "There are no entries for importing.");
    }
    return JsonResponse(StatusOK, EntriesPayload(|entries|, entries));
  }

  // ---------------------------------------------------------------------
  // POST /api/entries/mark
  // ---------------------------------------------------------------------

  /** The state of the marking loop: the table, and the ids marked so far
      in the order they were marked (imported_count is its length). */
  datatype BatchResult = BatchResult(table: Table, marked: seq<int>)

  /** The storage fault met while handling the i-th id; ids past the end of
      the list of faults meet none. */
  function FaultAt(faults: seq<Fault>, i: nat): Fault {
    if i < |faults| then faults[i] else NoFault
  }

  /** One pass of the loop: a failed probe, a missing id and an imported id
      are skipped; otherwise the id is marked and counted unless the update
      fails. */
  function MarkOne(b: BatchResult, id: int, now: Timestamp, fault: Fault): BatchResult {
    var c := CheckEntryResult(b.table, id, fault);
    if c.err.Some? || !c.present || !c.isUnimported then b
    else
      var u := ImportTransition(b.table, id, now, fault);
      if u.err.Some? then b else BatchResult(u.table, b.marked + [id])
  }

  /** The loop over the batch, in order. */
  function MarkBatch(t: Table, ids: seq<int>, faults: seq<Fault>, now: Timestamp): BatchResult {
    if ids == [] then BatchResult(t, [])
    else MarkOne(MarkBatch(t, ids[..|ids| - 1], faults, now), ids[|ids| - 1], now, FaultAt(faults, |ids| - 1))
  }

  datatype MarkOutcome = MarkOutcome(response: Response, table: Table)

  /** What markEntriesAsImported answers, and the table it leaves. */
  function MarkResponse(t: Table, ids: seq<int>, fetchFault: Fault, faults: seq<Fault>, now: Timestamp): MarkOutcome {
    if |ids| == 0 then
      MarkOutcome(ErrorResponse(StatusBadRequest, MissingParams, "You must provide 'entry_ids' into body."), t)
    else if fetchFault == QueryFault then
      MarkOutcome(NoResponse, t)
    else
      var remaining := |Unimported(t.entries)|;
      if remaining == 0 then
        MarkOutcome(ErrorResponse(StatusNotFound, NoEntriesToImport, "There are no entries to import."), t)
      else
        var b := MarkBatch(t, ids, faults, now);
        MarkOutcome(JsonResponse(StatusOK, CountsPayload(|b.marked|, remaining)), b.table)
  }

  /** One pass keeps the table's invariants and lifecycle rules, and what
      it counts is what it takes off the unimported rows. */
  lemma MarkOneCount(b: BatchResult, id: int, now: Timestamp, fault: Fault)
    requires WellFormed(b.table)
    ensures var b' := MarkOne(b, id, now, fault);
      && WellFormed(b'.table) && Evolves(b.table, b'.table)
      && |Unimported(b'.table.entries)| + |b'.marked| == |Unimported(b.table.entries)| + |b.marked|
  {
    var c := CheckEntryResult(b.table, id, fault);
    if !(c.err.Some? || !c.present || !c.isUnimported) {
      ImportPreservesWellFormed(b.table, id, now, fault);
      ImportEvolves(b.table, id, now, fault);
      StampRowsCount(b.table.entries, id, now);
    }
  }

  /** One pass either counts nothing and leaves the table alone, or counts
      its id, which was unimported and now is imported. */
  lemma MarkOneMarks(b: BatchResult, id: int, now: Timestamp, fault: Fault)
    ensures var b' := MarkOne(b, id, now, fault);
      && (b'.marked == b.marked || (b'.marked == b.marked + [id] && WasUnimported(b.table, id) && IsImported(b'.table, id)))
      && (b'.marked == b.marked ==> b'.table == b.table)
  {
    var c := CheckEntryResult(b.table, id, fault);
    if !(c.err.Some? || !c.present || !c.isUnimported) {
      if ImportTransition(b.table, id, now, fault).err.None? {
        ImportThenCheck(b.table, id, now, fault);
      }
    }
  }

  /** Without a fault, one pass leaves its id not unimported. */
  lemma MarkOneSettles(b: BatchResult, id: int, now: Timestamp)
    ensures !WasUnimported(MarkOne(b, id, now, NoFault).table, id)
  {
    var c := CheckEntryResult(b.table, id, NoFault);
    if !(c.err.Some? || !c.present || !c.isUnimported) {
      ImportThenCheck(b.table, id, now, NoFault);
    }
  }

  /** One pass keeps the set of ids, and changes the import status of no
      id but its own. */
  lemma MarkOneKeepsOthers(b: BatchResult, id: int, now: Timestamp, fault: Fault, other: int)
    ensures IdExists(MarkOne(b, id, now, fault).table.entries, other) <==> IdExists(b.table.entries, other)
    ensures other != id ==>
      (NoImportedRowWithId(MarkOne(b, id, now, fault).table.entries, other) <==> NoImportedRowWithId(b.table.entries, other))
  {
    var b' := MarkOne(b, id, now, fault);
    if b'.table != b.table {
      ImportTouchesOnlyItsRow(b.table, id, now, fault);
      var es, es' := b.table.entries, b'.table.entries;
      assert forall i :: 0 <= i < |es| ==> es'[i].id == es[i].id;
      assert forall i :: 0 <= i < |es| && es[i].id == other && other != id ==> es'[i] == es[i];
    }
  }

  /** A pass never makes an id unimported, and never unmakes an import. */
  lemma MarkOneMonotone(b: BatchResult, id: int, now: Timestamp, fault: Fault, x: int)
    ensures WasUnimported(MarkOne(b, id, now, fault).table, x) ==> WasUnimported(b.table, x)
    ensures IsImported(b.table, x) ==> IsImported(MarkOne(b, id, now, fault).table, x)
  {
    MarkOneKeepsOthers(b, id, now, fault, x);
    MarkOneMarks(b, id, now, fault);
  }

  /** The batch never makes an id unimported. */
  lemma {:induction false} BatchNeverUnimports(t: Table, ids: seq<int>, faults: seq<Fault>, now: Timestamp, x: int)
    ensures WasUnimported(MarkBatch(t, ids, faults, now).table, x) ==> WasUnimported(t, x)
  {
    if ids != [] {
      var n := |ids| - 1;
      BatchNeverUnimports(t, ids[..n], faults, now, x);
      MarkOneMonotone(MarkBatch(t, ids[..n], faults, now), ids[n], now, FaultAt(faults, n), x);
    }
  }

  /** The batch keeps the table's invariants, keeps the lifecycle rules,
      and each id it counts lowers the number of unimported rows by one, so
      that the counted ids and the rows still unimported add up to the rows
      that were unimported before the batch.  A batch that counts nothing
      leaves the table as it was. */
  lemma {:induction false} MarkBatchCount(t: Table, ids: seq<int>, faults: seq<Fault>, now: Timestamp)
    requires WellFormed(t)
    ensures var b := MarkBatch(t, ids, faults, now);
      && WellFormed(b.table) && Evolves(t, b.table)
      && |Unimported(b.table.entries)| + |b.marked| == |Unimported(t.entries)|
      && (b.marked == [] ==> b.table == t)
  {
    if ids != [] {
      var n := |ids| - 1;
      MarkBatchCount(t, ids[..n], faults, now);
      var prev := MarkBatch(t, ids[..n], faults, now);
      MarkOneCount(prev, ids[n], now, FaultAt(faults, n));
      MarkOneMarks(prev, ids[n], now, FaultAt(faults, n));
      EvolvesTransitive(t, prev.table, MarkBatch(t, ids, faults, now).table);
    }
  }

  /** Every id the batch counts is one of the ids asked for and was
      unimported before the batch. */
  lemma {:induction false} MarkedWereUnimported(t: Table, ids: seq<int>, faults: seq<Fault>, now: Timestamp)
    ensures forall k :: 0 <= k < |MarkBatch(t, ids, faults, now).marked| ==>
      MarkBatch(t, ids, faults, now).marked[k] in ids && WasUnimported(t, MarkBatch(t, ids, faults, now).marked[k])
  {
    if ids != [] {
      var n := |ids| - 1;
      MarkedWereUnimported(t, ids[..n], faults, now);
      var prev := MarkBatch(t, ids[..n], faults, now);
      MarkOneMarks(prev, ids[n], now, FaultAt(faults, n));
      BatchNeverUnimports(t, ids[..n], faults, now, ids[n]);
      assert forall id :: id in ids[..n] ==> id in ids;
    }
  }

  /** Every id the batch counts is imported after it. */
  lemma {:induction false} MarkedImported(t: Table, ids: seq<int>, faults: seq<Fault>, now: Timestamp)
    ensures forall k :: 0 <= k < |MarkBatch(t, ids, faults, now).marked| ==>
      IsImported(MarkBatch(t, ids, faults, now).table, MarkBatch(t, ids, faults, now).marked[k])
  {
    if ids != [] {
      var n := |ids| - 1;
      MarkedImported(t, ids[..n], faults, now);
      var prev := MarkBatch(t, ids[..n], faults, now);
      MarkOneMarks(prev, ids[n], now, FaultAt(faults, n));
      forall k | 0 <= k < |prev.marked|
        ensures IsImported(MarkOne(prev, ids[n], now, FaultAt(faults, n)).table, prev.marked[k])
      {
        MarkOneMonotone(prev, ids[n], now, FaultAt(faults, n), prev.marked[k]);
      }
    }
  }

  /** No id is counted twice, however often it occurs in the batch. */
  lemma {:induction false} MarkedDistinct(t: Table, ids: seq<int>, faults: seq<Fault>, now: Timestamp)
    ensures forall k, l :: 0 <= k < l < |MarkBatch(t, ids, faults, now).marked| ==>
      MarkBatch(t, ids, faults, now).marked[k] != MarkBatch(t, ids, faults, now).marked[l]
  {
    if ids != [] {
      var n := |ids| - 1;
      MarkedDistinct(t, ids[..n], faults, now);
      MarkedImported(t, ids[..n], faults, now);
      var prev := MarkBatch(t, ids[..n], faults, now);
      MarkOneMarks(prev, ids[n], now, FaultAt(faults, n));
    }
  }

  /** Every row the batch imports is one it counts. */
  lemma {:induction false} ImportedAreMarked(t: Table, ids: seq<int>, faults: seq<Fault>, now: Timestamp)
    ensures forall id :: WasUnimported(t, id) && !WasUnimported(MarkBatch(t, ids, faults, now).table, id) ==>
      id in MarkBatch(t, ids, faults, now).marked
  {
    if ids != [] {
      var n := |ids| - 1;
      ImportedAreMarked(t, ids[..n], faults, now);
      var prev := MarkBatch(t, ids[..n], faults, now);
      var b := MarkBatch(t, ids, faults, now);
      MarkOneMarks(prev, ids[n], now, FaultAt(faults, n));
      forall id | WasUnimported(t, id) && !WasUnimported(b.table, id)
        ensures id in b.marked
      {
        MarkOneKeepsOthers(prev, ids[n], now, FaultAt(faults, n), id);
      }
    }
  }

  /** Without storage faults no id of the batch is left unimported. */
  lemma {:induction false} MarkBatchLeavesNoneUnimported(t: Table, ids: seq<int>, faults: seq<Fault>, now: Timestamp)
    requires forall i :: 0 <= i < |ids| ==> FaultAt(faults, i) == NoFault
    ensures forall id :: id in ids ==> !WasUnimported(MarkBatch(t, ids, faults, now).table, id)
  {
    if ids != [] {
      var n := |ids| - 1;
      MarkBatchLeavesNoneUnimported(t, ids[..n], faults, now);
      var prev := MarkBatch(t, ids[..n], faults, now);
      MarkOneSettles(prev, ids[n], now);
      forall id | id in ids ensures !WasUnimported(MarkBatch(t, ids, faults, now).table, id) {
        if id != ids[n] {
          assert id in ids[..n];
          MarkOneMonotone(prev, ids[n], now, NoFault, id);
        }
      }
    }
  }

  /** Without storage faults the batch counts exactly the ids asked for that
      were unimported, and afterwards none of the ids asked for is left
      unimported. */
  lemma MarkBatchWithoutFaults(t: Table, ids: seq<int>, faults: seq<Fault>, now: Timestamp)
    requires forall i :: 0 <= i < |ids| ==> FaultAt(faults, i) == NoFault
    ensures forall id :: id in MarkBatch(t, ids, faults, now).marked <==> id in ids && WasUnimported(t, id)
    ensures forall id :: id in ids ==> !WasUnimported(MarkBatch(t, ids, faults, now).table, id)
  {
    MarkBatchLeavesNoneUnimported(t, ids, faults, now);
    MarkedWereUnimported(t, ids, faults, now);
    ImportedAreMarked(t, ids, faults, now);
  }

  /** A batch none of whose ids is unimported counts nothing and changes
      nothing. */
  lemma {:induction false} MarkBatchSettled(t: Table, ids: seq<int>, faults: seq<Fault>, now: Timestamp)
    requires forall id :: id in ids ==> !WasUnimported(t, id)
    ensures MarkBatch(t, ids, faults, now) == BatchResult(t, [])
  {
    if ids != [] {
      var n := |ids| - 1;
      assert forall id :: id in ids[..n] ==> id in ids;
      MarkBatchSettled(t, ids[..n], faults, now);
      assert ids[n] in ids;
    }
  }

  /** Replaying a batch that went through without faults counts nothing
      and changes nothing, whatever faults the replay meets. */
  lemma MarkBatchReplay(t: Table, ids: seq<int>, faults: seq<Fault>, replayFaults: seq<Fault>, now: Timestamp, later: Timestamp)
    requires forall i :: 0 <= i < |ids| ==> FaultAt(faults, i) == NoFault
    ensures var first := MarkBatch(t, ids, faults, now);
      MarkBatch(first.table, ids, replayFaults, later) == BatchResult(first.table, [])
  {
    MarkBatchLeavesNoneUnimported(t, ids, faults, now);
    MarkBatchSettled(MarkBatch(t, ids, faults, now).table, ids, replayFaults, later);
  }

  /** The counts reported by a successful call: imported_count is at most
      remaining_count, and remaining_count is the number of unimported rows
      before the call, so afterwards exactly
      remaining_count - imported_count rows are unimported. */
  lemma MarkResponseCounts(t: Table, ids: seq<int>, fetchFault: Fault, faults: seq<Fault>, now: Timestamp)
    requires WellFormed(t)
    ensures var r := MarkResponse(t, ids, fetchFault, faults, now);
      r.response.JsonResponse? ==>
        && r.response.data.remainingCount == |Unimported(t.entries)|
        && 0 <= r.response.data.importedCount <= r.response.data.remainingCount
        && |Unimported(r.table.entries)| == r.response.data.remainingCount - r.response.data.importedCount
  {
    MarkBatchCount(t, ids, faults, now);
  }

  /** The early exits: an empty batch is a request error answered before
      the store is touched; a failed fetch writes nothing; nothing
      unimported is its own error.  None of them changes the table. */
  lemma MarkResponseEarlyExits(t: Table, ids: seq<int>, fetchFault: Fault, faults: seq<Fault>, now: Timestamp)
    ensures var r := MarkResponse(t, ids, fetchFault, faults, now);
      && (ids == [] ==> r.response == ErrorResponse(StatusBadRequest, MissingParams, "You must provide 'entry_ids' into body."))
      && (ids != [] && fetchFault == QueryFault ==> r.response == NoResponse)
      && (ids != [] && fetchFault != QueryFault && Unimported(t.entries) == [] ==>
            r.response == ErrorResponse(StatusNotFound, NoEntriesToImport, "There are no entries to import."))
      && (!r.response.JsonResponse? ==> r.table == t)
  {
  }

  /** A batch of three ids is three passes, in order. */
  lemma MarkBatchOfThree(t: Table, x: int, y: int, z: int, now: Timestamp)
    ensures MarkBatch(t, [x, y, z], [], now)
         == MarkOne(MarkOne(MarkOne(BatchResult(t, []), x, now, NoFault), y, now, NoFault), z, now, NoFault)
  {
    var b1 := MarkOne(BatchResult(t, []), x, now, NoFault);
    var b2 := MarkOne(b1, y, now, NoFault);
    assert [x][..0] == [];
    assert MarkBatch(t, [x], [], now) == b1;
    assert [x, y][..1] == [x];
    assert MarkBatch(t, [x, y], [], now) == b2;
    assert [x, y, z][..2] == [x, y];
  }

  /** In a batch [x, y, z] where x is unimported, y is already imported and
      z does not exist, only x is counted. */
  lemma MarkOnlyUnimported(t: Table, x: int, y: int, z: int, now: Timestamp)
    requires WasUnimported(t, x) && IsImported(t, y) && !IdExists(t.entries, z)
    ensures MarkBatch(t, [x, y, z], [], now).marked == [x]
  {
    var b0 := BatchResult(t, []);
    var b1 := MarkOne(b0, x, now, NoFault);
    var b2 := MarkOne(b1, y, now, NoFault);
    MarkBatchOfThree(t, x, y, z, now);
    MarkOneMarks(b0, x, now, NoFault);
    MarkOneSettles(b0, x, now);
    MarkOneMonotone(b0, x, now, NoFault, y);
    MarkOneMarks(b1, y, now, NoFault);
    MarkOneKeepsOthers(b0, x, now, NoFault, z);
    MarkOneKeepsOthers(b1, y, now, NoFault, z);
    MarkOneMarks(b2, z, now, NoFault);
  }

  /** Marking [1, 2, 3] when 1 is unimported, 2 is already imported and 3
      does not exist counts only 1, and remaining_count is the number of
      unimported rows before the call. */
  lemma MarkExample(t: Table, now: Timestamp)
    requires WasUnimported(t, 1) && IsImported(t, 2) && !IdExists(t.entries, 3)
    ensures MarkResponse(t, [1, 2, 3], NoFault, [], now).response
         == JsonResponse(StatusOK, CountsPayload(1, |Unimported(t.entries)|))
  {
    MarkOnlyUnimported(t, 1, 2, 3, now);
    assert Unimported(t.entries) != [] by {
      UnimportedMembers(t.entries);
      var i :| 0 <= i < |t.entries| && t.entries[i].id == 1;
      assert t.entries[i] in Unimported(t.entries);
    }
  }

  method MarkEntriesAsImported(db: Database, entryIds: seq<int>, fetchFault: Fault, itemFaults: seq<Fault>, now: Timestamp)
    returns (resp: Response)
    requires db.Valid()
    modifies db
    ensures db.Valid() && db.tokens == old(db.tokens)
    ensures MarkOutcome(resp, db.State()) == MarkResponse(old(db.State()), entryIds, fetchFault, itemFaults, now)
  {
    if |entryIds| == 0 {
      return ErrorResponse(StatusBadRequest, MissingParams, "You must provide 'entry_ids' into body.");
    }
    var entries, err := db.GetUnimportedEntries(fetchFault);
    if err.Some? {
      return NoResponse;
    }
    var remainingUnimportedCount := |entries|;
    if remainingUnimportedCount == 0 {
      return ErrorResponse(StatusNotFound, NoEntriesToImport, "There are no entries to import.");
    }
    ghost var start := db.State();
    var importedCount := 0;
    var i := 0;
    while i < |entryIds|
      invariant 0 <= i <= |entryIds|
      invariant db.Valid() && db.tokens == old(db.tokens)
      invariant db.State() == MarkBatch(start, entryIds[..i], itemFaults, now).table
      invariant importedCount == |MarkBatch(start, entryIds[..i], itemFaults, now).marked|
    {
      var entryId := entryIds[i];
      var fault := FaultAt(itemFaults, i);
      ghost var before := MarkBatch(start, entryIds[..i], itemFaults, now);
      assert entryIds[..i + 1][..i] == entryIds[..i];
      assert MarkBatch(start, entryIds[..i + 1], itemFaults, now) == MarkOne(before, entryId, now, fault);
      var present, isUnimported, checkErr := db.CheckEntry(entryId, fault);
      if checkErr.Some? || !present || !isUnimported {
        i := i + 1;
        continue;
      }
      var updateErr := db.UpdateEntryImportStatus(entryId, now, fault);
      if updateErr.Some? {
        i := i + 1;
        continue;
      }
      importedCount := importedCount + 1;
      i := i + 1;
    }
    assert entryIds[..i] == entryIds;
    return JsonResponse(StatusOK, CountsPayload(importedCount, remainingUnimportedCount));
  }

  // ---------------------------------------------------------------------
  // The two routes behind the middleware
  // ---------------------------------------------------------------------

  /** The two routes; the body of a mark request is None when it does not
      decode as JSON (an entry id outside the signed 64-bit range included),
      and otherwise its entry_ids (a missing field decodes as the empty
      list). */
  datatype Route = ListEntries | MarkEntries(body: Option<seq<int>>)

  const BadBodyResponse := PlainError(StatusBadRequest, "Invalid request format")

  /** The storage faults met while serving one request. */
  datatype RequestFaults = RequestFaults(lookup: Fault, touch: Fault, fetch: Fault, items: seq<Fault>)

  function RouteOutcome(t: Table, route: Route, faults: RequestFaults, now: Timestamp): MarkOutcome {
    match route
    case ListEntries => MarkOutcome(ListResponse(t, faults.fetch), t)
    case MarkEntries(None) => MarkOutcome(BadBodyResponse, t)
    case MarkEntries(Some(ids)) => MarkResponse(t, ids, faults.fetch, faults.items, now)
  }

  /** Only a successful answer changes the table; a body that does not
      decode is the one plain-text answer, and every other error carries an
      error code. */
  lemma RouteErrorsChangeNothing(t: Table, route: Route, faults: RequestFaults, now: Timestamp)
    ensures var r := RouteOutcome(t, route, faults, now);
      && (!r.response.JsonResponse? ==> r.table == t)
      && (r.response.PlainError? <==> route == MarkEntries(None))
      && (r.response == BadBodyResponse <==> route == MarkEntries(None))
  {
    match route
    case ListEntries =>
    case MarkEntries(None) =>
    case MarkEntries(Some(ids)) =>
      MarkResponseEarlyExits(t, ids, faults.fetch, faults.items, now);
  }

  /** A request on either route: the middleware decides, and only an
      accepted request reaches the handler, whose answer does not depend on
      whether the token's last_used update failed. */
  method Serve(db: Database, route: Route, header: string, hash: string -> string,
               faults: RequestFaults, now: Timestamp)
    returns (resp: Response)
    requires db.Valid()
    modifies db
    ensures db.Valid()
    ensures var d := AuthDecide(header, old(db.tokens), hash, faults.lookup);
      && db.tokens == (if d.Accepted? && faults.touch != ExecFault
                       then TouchTokens(old(db.tokens), d.token.id, now)
                       else old(db.tokens))
      && (d.Rejected? ==> resp == d.response && db.State() == old(db.State()))
      && (d.Accepted? ==> MarkOutcome(resp, db.State()) == RouteOutcome(old(db.State()), route, faults, now))
  {
    var decision := AuthMiddleware(db, header, hash, faults.lookup, faults.touch, now);
    if decision.Rejected? {
      return decision.response;
    }
    match route
    case ListEntries =>
      resp := GetUnimportedEntries(db, faults.fetch);
    case MarkEntries(None) =>
      resp := BadBodyResponse;
    case MarkEntries(Some(ids)) =>
      resp := MarkEntriesAsImported(db, ids, faults.fetch, faults.items, now);
  }
}
