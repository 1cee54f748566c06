/**
 * The server-side draw request handler (ajax/draw.php) over the `prizes`,
 * `participants` and `winners` tables. The tables are the sequence fields of
 * `Database`; `HandleDraw` runs the handler's steps in order, with one INSERT
 * per selected participant in a loop, and `DrawResult` is the same handler
 * as a function of the tables, about which the lemmas are stated.
 */
module DrawEndpoint {
  import opened Wrappers
  import opened Seqs

  /** The columns of `prizes` the handler uses. */
  datatype PrizeRow = PrizeRow(id: int, name: string, quantity: int)

  /** The columns of `participants` the handler uses. */
  datatype ParticipantRow = ParticipantRow(id: int, name: string, email: string)

  /** A `winners` row as the handler inserts it (`draw_date` is what `NOW()` reads when that row's INSERT runs). */
  datatype WinnerRow = WinnerRow(prizeId: int, participantId: int, drawDate: int, notes: string)

  datatype Tables = Tables(prizes: seq<PrizeRow>, participants: seq<ParticipantRow>, winners: seq<WinnerRow>)

  /**
   * The request: its HTTP method and the two fields of the decoded JSON body
   * (`None` when a field, or the whole body, is missing).
   */
  datatype DrawRequest = DrawRequest(httpMethod: string, prizeId: Option<int>, winnerCount: Option<int>)

  /** One element of the `winners` list of the response. */
  datatype WinnerEntry = WinnerEntry(name: string, email: string, prize: string)

  /**
   * The JSON response: `success: false` with a message; the `catch` branch
   * (`'Error: '` and the database's own message, whose text is not
   * modelled); or `success: true` with the winners list.
   */
  datatype Response =
    | Failure(message: string)
    | DatabaseError
    | Success(winners: seq<WinnerEntry>, message: string)

  const MethodNotAllowed := "Method not allowed"
  const InvalidParameters := "Invalid parameters"
  const PrizeUnavailable := "Hadiah tidak tersedia atau kuantitas tidak mencukupi"
  const NotEnoughParticipants := "Tidak cukup peserta yang tersedia"
  const DrawSucceeded := "Undian berhasil!"
  const AutoDrawNote := "Undian otomatis"

  function PrizeId(p: PrizeRow): int { p.id }
  function ParticipantId(p: ParticipantRow): int { p.id }
  function WinnerPair(w: WinnerRow): (int, int) { (w.prizeId, w.participantId) }

  predicate PrizeAvailable(prizes: seq<PrizeRow>, id: int, count: int)
  {
    exists p | p in prizes :: p.id == id && p.quantity >= count
  }

  predicate HasPrize(prizes: seq<PrizeRow>, id: int)
  {
    exists p | p in prizes :: p.id == id
  }

  predicate HasParticipant(participants: seq<ParticipantRow>, id: int)
  {
    exists p | p in participants :: p.id == id
  }

  /** `participant_id IN (SELECT w.participant_id FROM winners w WHERE w.prize_id = prizeId)` */
  predicate WonPrize(winners: seq<WinnerRow>, participantId: int, prizeId: int)
  {
    exists w | w in winners :: w.prizeId == prizeId && w.participantId == participantId
  }

  /**
   * The table invariant: no quantity below zero, no (prize, participant)
   * pair twice among winners, primary keys unique, and winner rows pointing
   * at existing prizes and participants.
   */
  predicate Inv(t: Tables)
  {
    && (forall i :: 0 <= i < |t.prizes| ==> t.prizes[i].quantity >= 0)
    && UniqueKeys(t.winners, WinnerPair)
    && UniqueKeys(t.prizes, PrizeId)
    && UniqueKeys(t.participants, ParticipantId)
    && (forall w :: w in t.winners ==> HasPrize(t.prizes, w.prizeId) && HasParticipant(t.participants, w.participantId))
  }

  // ---------------------------------------------------------------------
  // The queries

  /** A row the prize query matches. */
  predicate Matches(p: PrizeRow, id: int, count: int)
  {
    p.id == id && p.quantity >= count
  }

  /** Position of the first row the prize query matches, or `|prizes|` when there is none. */
  function FirstMatch(prizes: seq<PrizeRow>, id: int, count: int): (k: nat)
    ensures k <= |prizes|
    ensures k < |prizes| ==> Matches(prizes[k], id, count)
    ensures forall j :: 0 <= j < k ==> !Matches(prizes[j], id, count)
  {
    if prizes == [] then 0
    else if Matches(prizes[0], id, count) then 0
    else 1 + FirstMatch(prizes[1..], id, count)
  }

  /** `SELECT * FROM prizes WHERE id = :prize_id AND quantity >= :winner_count`, first row in table order. */
  function SelectPrize(prizes: seq<PrizeRow>, id: int, count: int): (r: Option<PrizeRow>)
    ensures r.None? <==> !PrizeAvailable(prizes, id, count)
    ensures r.Some? ==> r.value in prizes && r.value.id == id && r.value.quantity >= count
    ensures r.Some? ==> r.value == prizes[FirstMatch(prizes, id, count)]
  {
    var k := FirstMatch(prizes, id, count);
    if k < |prizes| then Some(prizes[k])
    else
      assert forall p :: p in prizes ==> !Matches(p, id, count);
      None
  }

  /** The participants that have not won `prizeId`, in table order. */
  function EligibleRows(t: Tables, prizeId: int): (rows: seq<ParticipantRow>)
    ensures forall p :: p in rows <==> p in t.participants && !WonPrize(t.winners, p.id, prizeId)
    ensures Distinct(t.participants) ==> Distinct(rows)
  {
    Filter(t.participants, (p: ParticipantRow) => !WonPrize(t.winners, p.id, prizeId))
  }

  /** The eligible rows `ORDER BY RAND() LIMIT :winner_count`, `rolls` standing for the random order. */
  function SelectParticipants(t: Tables, prizeId: int, count: nat, rolls: seq<nat>): (selected: seq<ParticipantRow>)
    ensures |selected| == if count <= |EligibleRows(t, prizeId)| then count else |EligibleRows(t, prizeId)|
    ensures forall p :: p in selected ==> p in EligibleRows(t, prizeId)
  {
    var pool := EligibleRows(t, prizeId);
    var shuffled := Shuffle(pool, rolls);
    var selected := if count <= |shuffled| then shuffled[..count] else shuffled;
    assert forall p :: p in selected ==> p in multiset(shuffled);
    assert multiset(shuffled) == multiset(pool);
    selected
  }

  /** The rows the handler's loop inserts, one per selected participant. */
  function WinnerRows(prizeId: int, selected: seq<ParticipantRow>, clock: nat -> int): (rows: seq<WinnerRow>)
    ensures |rows| == |selected|
    ensures forall k :: 0 <= k < |rows| ==>
      rows[k].prizeId == prizeId && rows[k].participantId == selected[k].id && rows[k].drawDate == clock(k)
      && rows[k].notes == AutoDrawNote
  {
    seq(|selected|, i requires 0 <= i < |selected| => WinnerRow(prizeId, selected[i].id, clock(i), AutoDrawNote))
  }

  /** The response list the handler's loop builds, one entry per selected participant. */
  function Entries(selected: seq<ParticipantRow>, prizeName: string): (entries: seq<WinnerEntry>)
    ensures |entries| == |selected|
    ensures forall k :: 0 <= k < |entries| ==>
      entries[k].name == selected[k].name && entries[k].email == selected[k].email && entries[k].prize == prizeName
  {
    seq(|selected|, i requires 0 <= i < |selected| => WinnerEntry(selected[i].name, selected[i].email, prizeName))
  }

  /** `UPDATE prizes SET quantity = quantity - :winner_count WHERE id = :prize_id` */
  function DecrementPrize(prizes: seq<PrizeRow>, id: int, count: int): (r: seq<PrizeRow>)
    ensures |r| == |prizes|
    ensures forall i :: 0 <= i < |r| ==> r[i].id == prizes[i].id && r[i].name == prizes[i].name
    ensures forall i :: 0 <= i < |r| ==>
      r[i].quantity == if prizes[i].id == id then prizes[i].quantity - count else prizes[i].quantity
  {
    seq(|prizes|, i requires 0 <= i < |prizes| =>
      if prizes[i].id == id then prizes[i].(quantity := prizes[i].quantity - count) else prizes[i])
  }

  // ---------------------------------------------------------------------
  // The handler as a function

  /**
   * The handler's steps in order: only POST; `prize_id` defaults to 0 and
   * `winner_count` to 1, and a zero value of either is rejected; the prize
   * must exist with at least `winner_count` units; a negative count makes
   * the `LIMIT` clause fail in the database; the random selection must
   * reach `winner_count` rows; then one row per winner and the decrement.
   */
  function DrawResult(t: Tables, req: DrawRequest, rolls: seq<nat>, clock: nat -> int): (r: (Response, Tables))
    ensures !r.0.Success? ==> r.1 == t
    ensures r.0.Success? ==> req.httpMethod == "POST" && r.0.message == DrawSucceeded
    ensures r.0.Success? ==> r.1.participants == t.participants && |r.1.winners| == |t.winners| + |r.0.winners|
  {
    if req.httpMethod != "POST" then (Failure(MethodNotAllowed), t)
    else
      var prizeId := req.prizeId.GetOr(0);
      var count := req.winnerCount.GetOr(1);
      if prizeId == 0 || count == 0 then (Failure(InvalidParameters), t)
      else match SelectPrize(t.prizes, prizeId, count)
        case None => (Failure(PrizeUnavailable), t)
        case Some(prize) =>
          if count < 0 then (DatabaseError, t)
          else
            var selected := SelectParticipants(t, prizeId, count, rolls);
            if |selected| < count then (Failure(NotEnoughParticipants), t)
            else
              (Success(Entries(selected, prize.name), DrawSucceeded), Commit(t, prizeId, count, selected, clock))
  }

  /** The writes of a successful draw: the winner rows after the old ones, then the decrement. */
  function Commit(t: Tables, prizeId: int, count: int, selected: seq<ParticipantRow>, clock: nat -> int): (t': Tables)
    ensures t'.participants == t.participants
    ensures t'.prizes == DecrementPrize(t.prizes, prizeId, count)
    ensures |t'.winners| == |t.winners| + |selected|
    ensures t'.winners[..|t.winners|] == t.winners && t'.winners[|t.winners|..] == WinnerRows(prizeId, selected, clock)
  {
    var t' := Tables(DecrementPrize(t.prizes, prizeId, count), t.participants, t.winners + WinnerRows(prizeId, selected, clock));
    assert t'.winners[..|t.winners|] == t.winners;
    t'
  }

  /**
   * Every rejection, in the order the handler checks, and the tables left
   * untouched by it; the prize check comes before the participant check.
   */
  lemma Rejections(t: Tables, req: DrawRequest, rolls: seq<nat>, clock: nat -> int)
    ensures var (response, t') := DrawResult(t, req, rolls, clock);
      var prizeId := req.prizeId.GetOr(0);
      var count := req.winnerCount.GetOr(1);
      && (response == Failure(MethodNotAllowed) <==> req.httpMethod != "POST")
      && (response == Failure(InvalidParameters) <==> req.httpMethod == "POST" && (prizeId == 0 || count == 0))
      && (response == Failure(PrizeUnavailable) <==>
            req.httpMethod == "POST" && prizeId != 0 && count != 0 && !PrizeAvailable(t.prizes, prizeId, count))
      && (response == DatabaseError <==>
            req.httpMethod == "POST" && prizeId != 0 && count < 0 && PrizeAvailable(t.prizes, prizeId, count))
      && (response == Failure(NotEnoughParticipants) <==>
            req.httpMethod == "POST" && prizeId != 0 && count > 0 && PrizeAvailable(t.prizes, prizeId, count)
            && |EligibleRows(t, prizeId)| < count)
      && (!response.Success? ==> t' == t)
  {
    var prizeId := req.prizeId.GetOr(0);
    var count := req.winnerCount.GetOr(1);
    if req.httpMethod == "POST" && prizeId != 0 && count > 0 {
      var shuffled := Shuffle(EligibleRows(t, prizeId), rolls);
      assert |SelectParticipants(t, prizeId, count, rolls)| == if count <= |shuffled| then count else |shuffled|;
    }
  }

  /** A request rejected for its method or parameters gets the same answer whatever the tables hold: they are not read. */
  lemma RejectedWithoutReading(t1: Tables, t2: Tables, req: DrawRequest, rolls: seq<nat>, clock: nat -> int)
    requires req.httpMethod != "POST" || req.prizeId.GetOr(0) == 0 || req.winnerCount.GetOr(1) == 0
    ensures DrawResult(t1, req, rolls, clock).0 == DrawResult(t2, req, rolls, clock).0
    ensures DrawResult(t1, req, rolls, clock).1 == t1
  {
  }

  /**
   * The selection: at most `count` distinct participants, all of them
   * eligible, exactly `count` when that many are eligible.
   */
  lemma SelectionEligible(t: Tables, prizeId: int, count: nat, rolls: seq<nat>)
    requires UniqueKeys(t.participants, ParticipantId)
    ensures var selected := SelectParticipants(t, prizeId, count, rolls);
      && |selected| == (if count <= |EligibleRows(t, prizeId)| then count else |EligibleRows(t, prizeId)|)
      && (forall p :: p in selected ==> p in t.participants && !WonPrize(t.winners, p.id, prizeId))
      && UniqueKeys(selected, ParticipantId)
  {
    var pool := EligibleRows(t, prizeId);
    UniqueKeysDistinct(t.participants, ParticipantId);
    var shuffled := Shuffle(pool, rolls);
    var selected := SelectParticipants(t, prizeId, count, rolls);
    assert forall p :: p in selected ==> p in shuffled;
    assert forall p :: p in shuffled ==> p in multiset(pool);
    assert Distinct(selected) by {
      forall i, j | 0 <= i < j < |selected| ensures selected[i] != selected[j] {
        assert selected[i] == shuffled[i] && selected[j] == shuffled[j];
      }
    }
    DistinctFromUniqueKeys(selected, t.participants, ParticipantId);
  }

  /** What a successful response is made of: the checks it passed, its selection and its writes. */
  lemma SuccessUnfold(t: Tables, req: DrawRequest, rolls: seq<nat>, clock: nat -> int)
    requires DrawResult(t, req, rolls, clock).0.Success?
    ensures var prizeId := req.prizeId.GetOr(0);
      var count := req.winnerCount.GetOr(1);
      && req.httpMethod == "POST" && prizeId != 0 && count > 0
      && SelectPrize(t.prizes, prizeId, count).Some?
      && var selected := SelectParticipants(t, prizeId, count, rolls);
         && |selected| == count
         && DrawResult(t, req, rolls, clock) ==
              (Success(Entries(selected, SelectPrize(t.prizes, prizeId, count).value.name), DrawSucceeded),
               Commit(t, prizeId, count, selected, clock))
  {
    var count := req.winnerCount.GetOr(1);
    var prizeId := req.prizeId.GetOr(0);
    var shuffled := Shuffle(EligibleRows(t, prizeId), rolls);
    assert |SelectParticipants(t, prizeId, count, rolls)| <= count;
  }

  /** The other direction: a request that passes every check is answered with the selection and its writes. */
  lemma DrawnWhenChecksPass(t: Tables, req: DrawRequest, rolls: seq<nat>, clock: nat -> int)
    requires req.httpMethod == "POST" && req.prizeId.GetOr(0) != 0 && req.winnerCount.GetOr(1) > 0
    requires SelectPrize(t.prizes, req.prizeId.GetOr(0), req.winnerCount.GetOr(1)).Some?
    requires |SelectParticipants(t, req.prizeId.GetOr(0), req.winnerCount.GetOr(1), rolls)| >= req.winnerCount.GetOr(1)
    ensures var prizeId := req.prizeId.GetOr(0);
      var count := req.winnerCount.GetOr(1);
      var selected := SelectParticipants(t, prizeId, count, rolls);
      DrawResult(t, req, rolls, clock) ==
        (Success(Entries(selected, SelectPrize(t.prizes, prizeId, count).value.name), DrawSucceeded),
         Commit(t, prizeId, count, selected, clock))
  {
  }

  /**
   * On success exactly `winner_count` rows are appended after the old ones,
   * each for the prize, with the automatic-draw note and a distinct
   * participant that had not won it; the response lists, in the same order,
   * that participant's name and e-mail with the prize name.
   */
  lemma SuccessRows(t: Tables, req: DrawRequest, rolls: seq<nat>, clock: nat -> int)
    requires UniqueKeys(t.participants, ParticipantId)
    requires DrawResult(t, req, rolls, clock).0.Success?
    ensures var (response, t') := DrawResult(t, req, rolls, clock);
      var prizeId := req.prizeId.GetOr(0);
      var count := req.winnerCount.GetOr(1);
      var prizeName := SelectPrize(t.prizes, prizeId, count).value.name;
      && t'.participants == t.participants
      && |t'.winners| == |t.winners| + count
      && t'.winners[..|t.winners|] == t.winners
      && |response.winners| == count
      && UniqueKeys(t'.winners[|t.winners|..], WinnerPair)
      && (forall k :: 0 <= k < count ==>
            && t'.winners[|t.winners| + k].prizeId == prizeId
            && t'.winners[|t.winners| + k].drawDate == clock(k)
            && t'.winners[|t.winners| + k].notes == AutoDrawNote
            && !WonPrize(t.winners, t'.winners[|t.winners| + k].participantId, prizeId)
            && exists p :: p in t.participants && p.id == t'.winners[|t.winners| + k].participantId
                 && response.winners[k] == WinnerEntry(p.name, p.email, prizeName))
  {
    SuccessUnfold(t, req, rolls, clock);
    var prizeId := req.prizeId.GetOr(0);
    var count := req.winnerCount.GetOr(1);
    var selected := SelectParticipants(t, prizeId, count, rolls);
    SelectionEligible(t, prizeId, count, rolls);
    var (response, t') := DrawResult(t, req, rolls, clock);
    var added := WinnerRows(prizeId, selected, clock);
    assert t'.winners[|t.winners|..] == added;
    forall k | 0 <= k < count
      ensures !WonPrize(t.winners, t'.winners[|t.winners| + k].participantId, prizeId)
      ensures exists p :: p in t.participants && p.id == t'.winners[|t.winners| + k].participantId
                 && response.winners[k] == WinnerEntry(p.name, p.email, SelectPrize(t.prizes, prizeId, count).value.name)
    {
      assert t'.winners[|t.winners| + k] == added[k];
      assert selected[k] in selected;
    }
    forall i, j | 0 <= i < j < |added| ensures WinnerPair(added[i]) != WinnerPair(added[j]) {
      assert ParticipantId(selected[i]) != ParticipantId(selected[j]);
    }
  }

  /** On success the prize's quantity (ids being unique) drops by exactly `winner_count`. */
  lemma SuccessDecrements(t: Tables, req: DrawRequest, rolls: seq<nat>, clock: nat -> int)
    requires UniqueKeys(t.prizes, PrizeId)
    requires DrawResult(t, req, rolls, clock).0.Success?
    ensures var t' := DrawResult(t, req, rolls, clock).1;
      var prizeId := req.prizeId.GetOr(0);
      var count := req.winnerCount.GetOr(1);
      && |t'.prizes| == |t.prizes|
      && forall i :: 0 <= i < |t.prizes| ==>
           if t.prizes[i].id == prizeId
           then t'.prizes[i] == t.prizes[i].(quantity := t.prizes[i].quantity - count)
                && t.prizes[i].quantity >= count
           else t'.prizes[i] == t.prizes[i]
  {
    SuccessUnfold(t, req, rolls, clock);
    var prizeId := req.prizeId.GetOr(0);
    var count := req.winnerCount.GetOr(1);
    var prize := SelectPrize(t.prizes, prizeId, count).value;
    var k :| 0 <= k < |t.prizes| && t.prizes[k] == prize;
    forall i | 0 <= i < |t.prizes| && t.prizes[i].id == prizeId ensures t.prizes[i].quantity >= count {
      assert PrizeId(t.prizes[i]) == PrizeId(t.prizes[k]);
    }
  }

  /** The decrement keeps the ids and every other column, and no quantity falls below zero. */
  lemma DecrementKeepsPrizes(prizes: seq<PrizeRow>, id: int, count: int)
    requires forall i :: 0 <= i < |prizes| ==> prizes[i].quantity >= 0
    requires forall i :: 0 <= i < |prizes| && prizes[i].id == id ==> prizes[i].quantity >= count
    requires UniqueKeys(prizes, PrizeId)
    ensures var r := DecrementPrize(prizes, id, count);
      && (forall i :: 0 <= i < |r| ==> r[i].quantity >= 0 && r[i].id == prizes[i].id)
      && UniqueKeys(r, PrizeId)
      && forall x :: HasPrize(prizes, x) ==> HasPrize(r, x)
  {
    var r := DecrementPrize(prizes, id, count);
    forall i, j | 0 <= i < j < |r| ensures PrizeId(r[i]) != PrizeId(r[j]) {
      assert PrizeId(prizes[i]) != PrizeId(prizes[j]);
    }
    forall x | HasPrize(prizes, x) ensures HasPrize(r, x) {
      var p :| p in prizes && p.id == x;
      var m :| 0 <= m < |prizes| && prizes[m] == p;
      assert r[m] in r;
    }
  }

  /** Appending rows for distinct participants that have not won the prize keeps the winner pairs unique. */
  lemma AppendKeepsPairsUnique(winners: seq<WinnerRow>, prizeId: int, selected: seq<ParticipantRow>, clock: nat -> int)
    requires UniqueKeys(winners, WinnerPair)
    requires UniqueKeys(selected, ParticipantId)
    requires forall p :: p in selected ==> !WonPrize(winners, p.id, prizeId)
    ensures UniqueKeys(winners + WinnerRows(prizeId, selected, clock), WinnerPair)
  {
    var added := WinnerRows(prizeId, selected, clock);
    var all := winners + added;
    forall i, j | 0 <= i < j < |all| ensures WinnerPair(all[i]) != WinnerPair(all[j]) {
      if j >= |winners| {
        var k := j - |winners|;
        assert all[j] == added[k];
        assert selected[k] in selected;
        if i < |winners| {
          assert all[i] in winners;
        } else {
          assert all[i] == added[i - |winners|];
          assert ParticipantId(selected[i - |winners|]) != ParticipantId(selected[k]);
        }
      }
    }
  }

  /** The writes of a draw whose checks passed keep the table invariant. */
  lemma CommitPreservesInv(t: Tables, prizeId: int, count: int, selected: seq<ParticipantRow>, clock: nat -> int)
    requires Inv(t)
    requires HasPrize(t.prizes, prizeId)
    requires forall i :: 0 <= i < |t.prizes| && t.prizes[i].id == prizeId ==> t.prizes[i].quantity >= count
    requires UniqueKeys(selected, ParticipantId)
    requires forall p :: p in selected ==> p in t.participants && !WonPrize(t.winners, p.id, prizeId)
    ensures Inv(Commit(t, prizeId, count, selected, clock))
  {
    var t' := Commit(t, prizeId, count, selected, clock);
    DecrementKeepsPrizes(t.prizes, prizeId, count);
    AppendKeepsPairsUnique(t.winners, prizeId, selected, clock);
    assert t'.winners == t.winners + WinnerRows(prizeId, selected, clock);
    forall w | w in t'.winners
      ensures HasPrize(t'.prizes, w.prizeId) && HasParticipant(t'.participants, w.participantId)
    {
      var k :| 0 <= k < |t'.winners| && t'.winners[k] == w;
      if k >= |t.winners| {
        var m := k - |t.winners|;
        assert w == WinnerRows(prizeId, selected, clock)[m];
        assert selected[m] in selected;
      }
    }
  }

  /** Every request keeps the table invariant. */
  lemma DrawPreservesInv(t: Tables, req: DrawRequest, rolls: seq<nat>, clock: nat -> int)
    requires Inv(t)
    ensures Inv(DrawResult(t, req, rolls, clock).1)
  {
    if DrawResult(t, req, rolls, clock).0.Success? {
      SuccessUnfold(t, req, rolls, clock);
      SuccessDecrements(t, req, rolls, clock);
      var prizeId := req.prizeId.GetOr(0);
      var count := req.winnerCount.GetOr(1);
      var selected := SelectParticipants(t, prizeId, count, rolls);
      SelectionEligible(t, prizeId, count, rolls);
      CommitPreservesInv(t, prizeId, count, selected, clock);
    }
  }

  lemma DrawPreservesInvWhenValid(t: Tables, req: DrawRequest, rolls: seq<nat>, clock: nat -> int)
    ensures Inv(t) ==> Inv(DrawResult(t, req, rolls, clock).1)
  {
    if Inv(t) {
      DrawPreservesInv(t, req, rolls, clock);
    }
  }

  // ---------------------------------------------------------------------
  // The handler over the tables

  class Database {
    var prizes: seq<PrizeRow>
    var participants: seq<ParticipantRow>
    var winners: seq<WinnerRow>

    function Contents(): Tables
      reads this
    {
      Tables(prizes, participants, winners)
    }

    /** `INSERT INTO winners (prize_id, participant_id, draw_date, notes) VALUES (...)` */
    method InsertWinner(prizeId: int, participantId: int, drawDate: int, notes: string)
      modifies this
      ensures winners == old(winners) + [WinnerRow(prizeId, participantId, drawDate, notes)]
      ensures prizes == old(prizes) && participants == old(participants)
    {
      winners := winners + [WinnerRow(prizeId, participantId, drawDate, notes)];
    }

    /** `UPDATE prizes SET quantity = quantity - count WHERE id = prizeId` */
    method UpdateQuantity(prizeId: int, count: int)
      modifies this
      ensures prizes == DecrementPrize(old(prizes), prizeId, count)
      ensures participants == old(participants) && winners == old(winners)
    {
      prizes := DecrementPrize(prizes, prizeId, count);
    }
  }

  /**
   * The handler's `foreach` loop: one INSERT per selected participant, in
   * order, each also appended to the response list.
   */
  method RecordWinners(db: Database, prizeId: int, selected: seq<ParticipantRow>, prizeName: string, clock: nat -> int)
    returns (winners: seq<WinnerEntry>)
    modifies db
    ensures db.winners == old(db.winners) + WinnerRows(prizeId, selected, clock)
    ensures db.prizes == old(db.prizes) && db.participants == old(db.participants)
    ensures winners == Entries(selected, prizeName)
  {
    winners := [];
    for i := 0 to |selected|
      invariant db.prizes == old(db.prizes) && db.participants == old(db.participants)
      invariant db.winners == old(db.winners) + WinnerRows(prizeId, selected[..i], clock)
      invariant winners == Entries(selected[..i], prizeName)
    {
      db.InsertWinner(prizeId, selected[i].id, clock(i), AutoDrawNote);
      winners := winners + [WinnerEntry(selected[i].name, selected[i].email, prizeName)];
      assert selected[..i + 1] == selected[..i] + [selected[i]];
    }
    assert selected[..|selected|] == selected;
  }

  /**
   * The request handler: the checks with their early exits, then the loop
   * that inserts one winner row per selected participant and collects the
   * response list, then the quantity update.
   */
  method HandleDraw(db: Database, req: DrawRequest, rolls: seq<nat>, clock: nat -> int) returns (response: Response)
    modifies db
    ensures (response, db.Contents()) == DrawResult(old(db.Contents()), req, rolls, clock)
    ensures Inv(old(db.Contents())) ==> Inv(db.Contents())
  {
    ghost var before := db.Contents();
    DrawPreservesInvWhenValid(before, req, rolls, clock);
    if req.httpMethod != "POST" {
      return Failure(MethodNotAllowed);
    }
    var prizeId := req.prizeId.GetOr(0);
    var winnerCount := req.winnerCount.GetOr(1);
    if prizeId == 0 || winnerCount == 0 {
      return Failure(InvalidParameters);
    }
    var prize := SelectPrize(db.prizes, prizeId, winnerCount);
    if prize.None? {
      return Failure(PrizeUnavailable);
    }
    if winnerCount < 0 {
      return DatabaseError;
    }
    var participants := SelectParticipants(db.Contents(), prizeId, winnerCount, rolls);
    if |participants| < winnerCount {
      return Failure(NotEnoughParticipants);
    }
    var winners := RecordWinners(db, prizeId, participants, prize.value.name, clock);
    db.UpdateQuantity(prizeId, winnerCount);
    response := Success(winners, DrawSucceeded);
    DrawnWhenChecksPass(before, req, rolls, clock);
  }
}
