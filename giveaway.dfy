/**
 * The in-memory giveaway store of the single-page app (src/hooks/useGiveaway.ts):
 * prizes with a remaining quantity, participants, and winner records linking
 * a prize to a participant. The hook's three state cells are the fields of
 * `GiveawayStore`; the values its setters write are the pure functions below,
 * and the lemmas state what a draw, an add and a cascading delete guarantee.
 */
module Giveaway {
  import opened Wrappers
  import opened Seqs

  datatype Prize = Prize(id: string, name: string, description: string, quantity: int, image: Option<string>)

  datatype Participant = Participant(id: string, name: string, email: string, phone: Option<string>, address: Option<string>)

  /** `drawDate` is the clock reading of the draw, in milliseconds. */
  datatype Winner = Winner(id: string, prizeId: string, participantId: string, drawDate: int, notes: Option<string>)

  /** `Omit<Prize, 'id'>`: a prize as the form submits it. */
  datatype PrizeDraft = PrizeDraft(name: string, description: string, quantity: int, image: Option<string>)

  /** `Omit<Participant, 'id'>`. */
  datatype ParticipantDraft = ParticipantDraft(name: string, email: string, phone: Option<string>, address: Option<string>)

  /** A snapshot of the three state cells. */
  datatype Store = Store(prizes: seq<Prize>, participants: seq<Participant>, winners: seq<Winner>)

  /** The note every drawn winner record carries. */
  const AutoDrawNote := "Undian otomatis"

  function PrizeKey(p: Prize): string { p.id }
  function ParticipantKey(p: Participant): string { p.id }
  function WinnerPair(w: Winner): (string, string) { (w.prizeId, w.participantId) }

  predicate HasPrize(prizes: seq<Prize>, id: string)
  {
    exists p | p in prizes :: p.id == id
  }

  predicate HasParticipant(participants: seq<Participant>, id: string)
  {
    exists p | p in participants :: p.id == id
  }

  /** `winners.some(w => w.participantId === participantId && w.prizeId === prizeId)` */
  predicate HasWon(winners: seq<Winner>, participantId: string, prizeId: string)
  {
    exists w | w in winners :: w.participantId == participantId && w.prizeId == prizeId
  }

  /**
   * The store invariant: no quantity below zero, no (prize, participant) pair
   * recorded twice, ids unique, and every winner record pointing at an
   * existing prize and participant.
   */
  predicate Inv(s: Store)
  {
    && (forall i :: 0 <= i < |s.prizes| ==> s.prizes[i].quantity >= 0)
    && UniqueKeys(s.winners, WinnerPair)
    && UniqueKeys(s.prizes, PrizeKey)
    && UniqueKeys(s.participants, ParticipantKey)
    && (forall w :: w in s.winners ==> HasPrize(s.prizes, w.prizeId) && HasParticipant(s.participants, w.participantId))
  }

  // ---------------------------------------------------------------------
  // The draw

  /** `prizes.find(p => p.id === id)` */
  function FindPrize(prizes: seq<Prize>, id: string): (r: Option<Prize>)
    ensures r.None? <==> !HasPrize(prizes, id)
    ensures r.Some? ==> r.value in prizes && r.value.id == id
    ensures r.Some? ==> exists k :: 0 <= k < |prizes| && prizes[k] == r.value && forall j :: 0 <= j < k ==> prizes[j].id != id
  {
    if prizes == [] then None
    else if prizes[0].id == id then Some(prizes[0])
    else
      assert forall p :: p in prizes[1..] ==> p in prizes;
      var r := FindPrize(prizes[1..], id);
      assert r.Some? ==> (exists k :: 0 <= k < |prizes| && prizes[k] == r.value && forall j :: 0 <= j < k ==> prizes[j].id != id) by {
        if r.Some? {
          var k :| 0 <= k < |prizes[1..]| && prizes[1..][k] == r.value && forall j :: 0 <= j < k ==> prizes[1..][j].id != id;
          assert prizes[k + 1] == r.value;
          forall j | 0 <= j < k + 1 ensures prizes[j].id != id {
            if j > 0 { assert prizes[j] == prizes[1..][j - 1]; }
          }
        }
      }
      r
  }

  /** The test of the eligibility filter: `!winners.some(w => w.participantId === p.id && w.prizeId === prizeId)`. */
  function NotWonBy(winners: seq<Winner>, prizeId: string): Participant -> bool
  {
    (p: Participant) => !HasWon(winners, p.id, prizeId)
  }

  /** The participants that have no winner record for `prizeId`, in list order. */
  function EligiblePool(participants: seq<Participant>, winners: seq<Winner>, prizeId: string): (pool: seq<Participant>)
    ensures |pool| <= |participants|
    ensures forall p :: p in pool <==> p in participants && !HasWon(winners, p.id, prizeId)
    ensures Distinct(participants) ==> Distinct(pool)
  {
    Filter(participants, NotWonBy(winners, prizeId))
  }

  /** One record per picked participant, for `prizeId`, with the automatic-draw note. */
  function NewWinners(prizeId: string, picked: seq<Participant>, newId: nat -> string, clock: nat -> int): (ws: seq<Winner>)
    ensures |ws| == |picked|
    ensures forall k :: 0 <= k < |ws| ==>
      ws[k].prizeId == prizeId && ws[k].participantId == picked[k].id && ws[k].notes == Some(AutoDrawNote)
      && ws[k].id == newId(k) && ws[k].drawDate == clock(k)
  {
    seq(|picked|, i requires 0 <= i < |picked| => Winner(newId(i), prizeId, picked[i].id, clock(i), Some(AutoDrawNote)))
  }

  /** `prizes.map(p => p.id === id ? { ...p, quantity: p.quantity - count } : p)` */
  function DecrementQuantity(prizes: seq<Prize>, id: string, count: int): (r: seq<Prize>)
    ensures |r| == |prizes|
    ensures forall i :: 0 <= i < |r| ==> r[i].id == prizes[i].id
    ensures forall i :: 0 <= i < |r| && prizes[i].id == id ==> r[i].quantity == prizes[i].quantity - count
    ensures forall i :: 0 <= i < |r| && prizes[i].id != id ==> r[i] == prizes[i]
  {
    seq(|prizes|, i requires 0 <= i < |prizes| =>
      if prizes[i].id == id then prizes[i].(quantity := prizes[i].quantity - count) else prizes[i])
  }

  /** The two setter calls of a successful draw: append the new records, decrement the prize. */
  function Commit(s: Store, prizeId: string, picked: seq<Participant>, count: int, newId: nat -> string, clock: nat -> int): (s': Store)
    ensures s'.participants == s.participants
    ensures |s'.prizes| == |s.prizes| && |s'.winners| == |s.winners| + |picked|
    ensures s'.winners[..|s.winners|] == s.winners
  {
    Store(DecrementQuantity(s.prizes, prizeId, count), s.participants, s.winners + NewWinners(prizeId, picked, newId, clock))
  }

  /** What `startDraw` reports (as a toast), and the participants it drew. */
  datatype DrawOutcome =
    | NoPrizeSelected
    | PrizeNotFound
    | NotEnoughParticipants
    | NotEnoughQuantity
    | Drawn(picked: seq<Participant>)

  /**
   * `startDraw` as a function of the store: the selected prize must be set
   * (a `null` or empty id is falsy) and exist; the eligible pool is checked
   * against `count` before the quantity is; on success the shuffled pool is
   * cut with JavaScript's `slice(0, count)`, one winner record per pick is
   * appended and the prize's quantity drops by `count`. `rolls` stands for
   * `Math.random()` in the shuffle, `newId` for the generated winner ids and
   * `clock(i)` for the clock reading of the `i`-th record. `count` is any integer, as in the source.
   */
  function Draw(s: Store, selected: Option<string>, count: int, rolls: seq<nat>, newId: nat -> string, clock: nat -> int): (r: (DrawOutcome, Store))
    ensures !r.0.Drawn? ==> r.1 == s
    ensures r.0.Drawn? ==> selected.Some? && HasPrize(s.prizes, selected.value)
    ensures r.0.Drawn? ==> r.1.participants == s.participants && |r.1.winners| == |s.winners| + |r.0.picked|
  {
    if selected.None? || selected.value == [] then (NoPrizeSelected, s)
    else
      var prizeId := selected.value;
      match FindPrize(s.prizes, prizeId)
      case None => (PrizeNotFound, s)
      case Some(prize) =>
        var pool := EligiblePool(s.participants, s.winners, prizeId);
        if |pool| < count then (NotEnoughParticipants, s)
        else if prize.quantity < count then (NotEnoughQuantity, s)
        else
          var picked := JsSlice(Shuffle(pool, rolls), count);
          (Drawn(picked), Commit(s, prizeId, picked, count, newId, clock))
  }

  /** Each rejection of `startDraw`, in the order the checks run, and the store left as it was. */
  lemma DrawRejections(s: Store, selected: Option<string>, count: int, rolls: seq<nat>, newId: nat -> string, clock: nat -> int)
    ensures var (outcome, s') := Draw(s, selected, count, rolls, newId, clock);
      && (outcome == NoPrizeSelected <==> selected.None? || selected.value == [])
      && (outcome == PrizeNotFound <==> selected.Some? && selected.value != [] && !HasPrize(s.prizes, selected.value))
      && (outcome == NotEnoughParticipants <==>
           selected.Some? && selected.value != [] && HasPrize(s.prizes, selected.value)
           && |EligiblePool(s.participants, s.winners, selected.value)| < count)
      && (outcome == NotEnoughQuantity <==>
           selected.Some? && selected.value != [] && HasPrize(s.prizes, selected.value)
           && count <= |EligiblePool(s.participants, s.winners, selected.value)|
           && FindPrize(s.prizes, selected.value).value.quantity < count)
      && (!outcome.Drawn? ==> s' == s)
  {
  }

  /** The picks of a draw are distinct members of the eligible pool, `count` of them when `count` is not negative. */
  lemma DrawPicks(s: Store, prizeId: string, count: int, rolls: seq<nat>)
    requires UniqueKeys(s.participants, ParticipantKey)
    requires count <= |EligiblePool(s.participants, s.winners, prizeId)|
    ensures var picked := JsSlice(Shuffle(EligiblePool(s.participants, s.winners, prizeId), rolls), count);
      && (0 <= count ==> |picked| == count)
      && (forall p :: p in picked ==> p in s.participants && !HasWon(s.winners, p.id, prizeId))
      && UniqueKeys(picked, ParticipantKey)
  {
    var pool := EligiblePool(s.participants, s.winners, prizeId);
    UniqueKeysDistinct(s.participants, ParticipantKey);
    var shuffled := Shuffle(pool, rolls);
    var picked := JsSlice(shuffled, count);
    assert forall p :: p in picked ==> p in shuffled;
    assert forall p :: p in shuffled ==> p in multiset(pool);
    assert Distinct(picked) by {
      forall i, j | 0 <= i < j < |picked| ensures picked[i] != picked[j] {
        assert picked[i] == shuffled[i] && picked[j] == shuffled[j];
      }
    }
    DistinctFromUniqueKeys(picked, s.participants, ParticipantKey);
  }

  /** What a successful draw is made of: the checks it passed, its picks and its commit. */
  lemma DrawnUnfold(s: Store, selected: Option<string>, count: int, rolls: seq<nat>, newId: nat -> string, clock: nat -> int)
    requires Draw(s, selected, count, rolls, newId, clock).0.Drawn?
    ensures selected.Some? && selected.value != [] && HasPrize(s.prizes, selected.value)
    ensures count <= |EligiblePool(s.participants, s.winners, selected.value)|
    ensures count <= FindPrize(s.prizes, selected.value).value.quantity
    ensures var picked := JsSlice(Shuffle(EligiblePool(s.participants, s.winners, selected.value), rolls), count);
      Draw(s, selected, count, rolls, newId, clock) == (Drawn(picked), Commit(s, selected.value, picked, count, newId, clock))
  {
  }

  /** Decrementing a prize that has at least `count` units keeps quantities non-negative and ids in place. */
  lemma DecrementKeepsPrizes(prizes: seq<Prize>, id: string, count: int)
    requires UniqueKeys(prizes, PrizeKey)
    requires forall i :: 0 <= i < |prizes| ==> prizes[i].quantity >= 0
    requires HasPrize(prizes, id) && count <= FindPrize(prizes, id).value.quantity
    ensures var r := DecrementQuantity(prizes, id, count);
      && (forall i :: 0 <= i < |r| ==> r[i].quantity >= 0)
      && UniqueKeys(r, PrizeKey)
      && (forall x :: HasPrize(prizes, x) ==> HasPrize(r, x))
  {
    var r := DecrementQuantity(prizes, id, count);
    var prize := FindPrize(prizes, id).value;
    var k :| 0 <= k < |prizes| && prizes[k] == prize;
    forall i | 0 <= i < |r| ensures r[i].quantity >= 0 {
      if prizes[i].id == id {
        assert PrizeKey(prizes[i]) == PrizeKey(prizes[k]);
      }
    }
    forall i, j | 0 <= i < j < |r| ensures PrizeKey(r[i]) != PrizeKey(r[j]) {
      assert PrizeKey(prizes[i]) != PrizeKey(prizes[j]);
    }
    forall x | HasPrize(prizes, x) ensures HasPrize(r, x) {
      var p :| p in prizes && p.id == x;
      var m :| 0 <= m < |prizes| && prizes[m] == p;
      assert r[m] in r;
    }
  }

  /** Records for distinct eligible participants never repeat a (prize, participant) pair. */
  lemma AppendKeepsPairsUnique(winners: seq<Winner>, prizeId: string, picked: seq<Participant>, newId: nat -> string, clock: nat -> int)
    requires UniqueKeys(winners, WinnerPair)
    requires forall p :: p in picked ==> !HasWon(winners, p.id, prizeId)
    requires UniqueKeys(picked, ParticipantKey)
    ensures UniqueKeys(winners + NewWinners(prizeId, picked, newId, clock), WinnerPair)
  {
    var added := NewWinners(prizeId, picked, newId, clock);
    var all := winners + added;
    forall i, j | 0 <= i < j < |all| ensures WinnerPair(all[i]) != WinnerPair(all[j]) {
      if j >= |winners| {
        var pj := picked[j - |winners|];
        assert all[j] == added[j - |winners|];
        assert pj in picked;
        if i < |winners| {
          assert all[i] in winners;
        } else {
          assert all[i] == added[i - |winners|];
          assert ParticipantKey(picked[i - |winners|]) != ParticipantKey(pj);
        }
      }
    }
  }

  /** A commit of distinct eligible participants for a prize with enough units keeps the invariant. */
  lemma CommitPreservesInv(s: Store, prizeId: string, picked: seq<Participant>, count: int, newId: nat -> string, clock: nat -> int)
    requires Inv(s)
    requires HasPrize(s.prizes, prizeId) && count <= FindPrize(s.prizes, prizeId).value.quantity
    requires forall p :: p in picked ==> p in s.participants && !HasWon(s.winners, p.id, prizeId)
    requires UniqueKeys(picked, ParticipantKey)
    ensures Inv(Commit(s, prizeId, picked, count, newId, clock))
  {
    var s' := Commit(s, prizeId, picked, count, newId, clock);
    DecrementKeepsPrizes(s.prizes, prizeId, count);
    AppendKeepsPairsUnique(s.winners, prizeId, picked, newId, clock);
    var added := NewWinners(prizeId, picked, newId, clock);
    forall w | w in s'.winners
      ensures HasPrize(s'.prizes, w.prizeId) && HasParticipant(s'.participants, w.participantId)
    {
      if w !in s.winners {
        var k :| 0 <= k < |added| && added[k] == w;
        assert picked[k] in picked;
      }
    }
  }

  /**
   * A successful draw with a positive count appends exactly `count` records
   * after the unchanged old ones, each for the selected prize, carrying the
   * automatic-draw note and a distinct participant from the eligible pool;
   * the selected prize loses exactly `count` units, every other prize and
   * every participant is untouched.
   */
  lemma DrawSuccess(s: Store, selected: Option<string>, count: int, rolls: seq<nat>, newId: nat -> string, clock: nat -> int)
    requires UniqueKeys(s.participants, ParticipantKey)
    requires count >= 1
    requires Draw(s, selected, count, rolls, newId, clock).0.Drawn?
    ensures selected.Some? && HasPrize(s.prizes, selected.value)
    ensures var s' := Draw(s, selected, count, rolls, newId, clock).1;
      var prizeId := selected.value;
      && s'.participants == s.participants
      && |s'.winners| == |s.winners| + count
      && s'.winners[..|s.winners|] == s.winners
      && (forall k :: |s.winners| <= k < |s'.winners| ==>
            && s'.winners[k].prizeId == prizeId
            && s'.winners[k].notes == Some(AutoDrawNote)
            && HasParticipant(s.participants, s'.winners[k].participantId)
            && !HasWon(s.winners, s'.winners[k].participantId, prizeId))
      && UniqueKeys(s'.winners[|s.winners|..], WinnerPair)
      && |s'.prizes| == |s.prizes|
      && (forall i :: 0 <= i < |s.prizes| ==>
            s'.prizes[i] == if s.prizes[i].id == prizeId
                            then s.prizes[i].(quantity := s.prizes[i].quantity - count)
                            else s.prizes[i])
  {
    DrawnUnfold(s, selected, count, rolls, newId, clock);
    var prizeId := selected.value;
    var picked := JsSlice(Shuffle(EligiblePool(s.participants, s.winners, prizeId), rolls), count);
    DrawPicks(s, prizeId, count, rolls);
    CommitShape(s, prizeId, picked, newId, clock);
  }

  /** The records a commit appends, and the prizes it rewrites. */
  lemma CommitShape(s: Store, prizeId: string, picked: seq<Participant>, newId: nat -> string, clock: nat -> int)
    requires forall p :: p in picked ==> p in s.participants && !HasWon(s.winners, p.id, prizeId)
    requires UniqueKeys(picked, ParticipantKey)
    ensures var s' := Commit(s, prizeId, picked, |picked|, newId, clock);
      && s'.participants == s.participants
      && |s'.winners| == |s.winners| + |picked|
      && s'.winners[..|s.winners|] == s.winners
      && (forall k :: |s.winners| <= k < |s'.winners| ==>
            && s'.winners[k].prizeId == prizeId
            && s'.winners[k].notes == Some(AutoDrawNote)
            && HasParticipant(s.participants, s'.winners[k].participantId)
            && !HasWon(s.winners, s'.winners[k].participantId, prizeId))
      && UniqueKeys(s'.winners[|s.winners|..], WinnerPair)
      && |s'.prizes| == |s.prizes|
      && (forall i :: 0 <= i < |s.prizes| ==>
            s'.prizes[i] == if s.prizes[i].id == prizeId
                            then s.prizes[i].(quantity := s.prizes[i].quantity - |picked|)
                            else s.prizes[i])
  {
    var s' := Commit(s, prizeId, picked, |picked|, newId, clock);
    var added := NewWinners(prizeId, picked, newId, clock);
    assert s'.winners[|s.winners|..] == added;
    forall k | |s.winners| <= k < |s'.winners|
      ensures HasParticipant(s.participants, s'.winners[k].participantId)
      ensures !HasWon(s.winners, s'.winners[k].participantId, prizeId)
    {
      assert s'.winners[k] == added[k - |s.winners|];
      assert picked[k - |s.winners|] in picked;
    }
    AppendKeepsPairsUnique([], prizeId, picked, newId, clock);
    assert [] + added == added;
  }

  /** For the selected prize (ids being unique), the quantity after a successful draw is the old one minus `count`. */
  lemma DrawDecrementsSelected(s: Store, selected: Option<string>, count: int, rolls: seq<nat>, newId: nat -> string, clock: nat -> int)
    requires count >= 1
    requires Draw(s, selected, count, rolls, newId, clock).0.Drawn?
    ensures FindPrize(s.prizes, selected.value).Some?
    ensures var s' := Draw(s, selected, count, rolls, newId, clock).1;
      FindPrize(s'.prizes, selected.value).Some?
      && FindPrize(s'.prizes, selected.value).value.quantity == FindPrize(s.prizes, selected.value).value.quantity - count
  {
    DrawnUnfold(s, selected, count, rolls, newId, clock);
    FirstPrizeAfterDecrement(s.prizes, selected.value, count);
  }

  /** Every draw, whatever `count`, keeps the store invariant. */
  lemma DrawPreservesInv(s: Store, selected: Option<string>, count: int, rolls: seq<nat>, newId: nat -> string, clock: nat -> int)
    requires Inv(s)
    ensures Inv(Draw(s, selected, count, rolls, newId, clock).1)
  {
    if Draw(s, selected, count, rolls, newId, clock).0.Drawn? {
      DrawnUnfold(s, selected, count, rolls, newId, clock);
      var prizeId := selected.value;
      var picked := JsSlice(Shuffle(EligiblePool(s.participants, s.winners, prizeId), rolls), count);
      DrawPicks(s, prizeId, count, rolls);
      CommitPreservesInv(s, prizeId, picked, count, newId, clock);
    }
  }

  /** Records for other prizes never shrink the pool of `prizeId`: the exclusion is per prize. */
  lemma PoolIgnoresOtherPrizes(participants: seq<Participant>, winners: seq<Winner>, others: seq<Winner>, prizeId: string)
    requires forall w :: w in others ==> w.prizeId != prizeId
    ensures EligiblePool(participants, winners + others, prizeId) == EligiblePool(participants, winners, prizeId)
  {
    forall p | p in participants
      ensures NotWonBy(winners + others, prizeId)(p) == NotWonBy(winners, prizeId)(p)
    {
      if HasWon(winners + others, p.id, prizeId) {
        var w :| w in winners + others && w.prizeId == prizeId && w.participantId == p.id;
      }
      if HasWon(winners, p.id, prizeId) {
        var w :| w in winners && w.prizeId == prizeId && w.participantId == p.id;
        assert w in winners + others;
      }
    }
    FilterCongruent(participants, NotWonBy(winners + others, prizeId), NotWonBy(winners, prizeId));
  }

  /**
   * After a successful draw the drawn participants are no longer eligible
   * for that prize, while the pools of all other prizes are unchanged.
   */
  lemma DrawExcludesWinnersFromPrize(s: Store, selected: Option<string>, count: int, rolls: seq<nat>, newId: nat -> string, clock: nat -> int, other: string)
    requires Draw(s, selected, count, rolls, newId, clock).0.Drawn?
    ensures var (outcome, s') := Draw(s, selected, count, rolls, newId, clock);
      && (forall p :: p in outcome.picked ==> p !in EligiblePool(s'.participants, s'.winners, selected.value))
      && (other != selected.value ==>
            EligiblePool(s'.participants, s'.winners, other) == EligiblePool(s.participants, s.winners, other))
  {
    var (outcome, s') := Draw(s, selected, count, rolls, newId, clock);
    var prizeId := selected.value;
    var added := NewWinners(prizeId, outcome.picked, newId, clock);
    assert s'.winners == s.winners + added;
    forall p | p in outcome.picked ensures HasWon(s'.winners, p.id, prizeId) {
      var k :| 0 <= k < |outcome.picked| && outcome.picked[k] == p;
      assert added[k] in s'.winners;
    }
    if other != prizeId {
      PoolIgnoresOtherPrizes(s.participants, s.winners, added, other);
    }
  }

  /**
   * As written, a negative count passes both checks (`pool.length < count`
   * and `quantity < count` cannot hold), `slice(0, count)` keeps all but the
   * last `-count` shuffled participants, and the quantity goes UP by `-count`.
   */
  lemma NegativeCountInflatesQuantity(s: Store, prizeId: string, count: int, rolls: seq<nat>, newId: nat -> string, clock: nat -> int)
    requires prizeId != [] && HasPrize(s.prizes, prizeId)
    requires FindPrize(s.prizes, prizeId).value.quantity >= 0
    requires count < 0
    ensures var (outcome, s') := Draw(s, Some(prizeId), count, rolls, newId, clock);
      var pool := EligiblePool(s.participants, s.winners, prizeId);
      && outcome.Drawn?
      && |outcome.picked| == (if |pool| + count < 0 then 0 else |pool| + count)
      && |s'.winners| == |s.winners| + |outcome.picked|
      && FindPrize(s'.prizes, prizeId).Some?
      && FindPrize(s'.prizes, prizeId).value.quantity == FindPrize(s.prizes, prizeId).value.quantity - count
      && FindPrize(s'.prizes, prizeId).value.quantity > FindPrize(s.prizes, prizeId).value.quantity
  {
    var (outcome, s') := Draw(s, Some(prizeId), count, rolls, newId, clock);
    FirstPrizeAfterDecrement(s.prizes, prizeId, count);
  }

  /** The first prize with `id` after `DecrementQuantity` is the first one before, decremented. */
  lemma {:induction false} FirstPrizeAfterDecrement(prizes: seq<Prize>, id: string, count: int)
    requires HasPrize(prizes, id)
    ensures FindPrize(DecrementQuantity(prizes, id, count), id).Some?
    ensures FindPrize(DecrementQuantity(prizes, id, count), id).value.quantity == FindPrize(prizes, id).value.quantity - count
  {
    var r := DecrementQuantity(prizes, id, count);
    if prizes[0].id != id {
      assert r[1..] == DecrementQuantity(prizes[1..], id, count);
      assert r[0] == prizes[0];
      var p :| p in prizes && p.id == id;
      assert p in prizes[1..];
      FirstPrizeAfterDecrement(prizes[1..], id, count);
    }
  }

  // ---------------------------------------------------------------------
  // Adding and deleting

  /** `addPrize`: the draft with a fresh id, appended. */
  function WithPrize(s: Store, draft: PrizeDraft, id: string): (r: Store)
    ensures r.participants == s.participants && r.winners == s.winners
    ensures |r.prizes| == |s.prizes| + 1 && r.prizes[..|s.prizes|] == s.prizes
    ensures r.prizes[|s.prizes|] == Prize(id, draft.name, draft.description, draft.quantity, draft.image)
  {
    s.(prizes := s.prizes + [Prize(id, draft.name, draft.description, draft.quantity, draft.image)])
  }

  /** `addParticipant`: the draft with a fresh id, appended. */
  function WithParticipant(s: Store, draft: ParticipantDraft, id: string): (r: Store)
    ensures r.prizes == s.prizes && r.winners == s.winners
    ensures |r.participants| == |s.participants| + 1 && r.participants[..|s.participants|] == s.participants
    ensures r.participants[|s.participants|] == Participant(id, draft.name, draft.email, draft.phone, draft.address)
  {
    s.(participants := s.participants + [Participant(id, draft.name, draft.email, draft.phone, draft.address)])
  }

  /** `deletePrize`: the prize and every winner record of it are removed; the rest stays in order. */
  function WithoutPrize(s: Store, prizeId: string): (r: Store)
    ensures r.participants == s.participants
    ensures forall p :: p in r.prizes <==> p in s.prizes && p.id != prizeId
    ensures forall w :: w in r.winners <==> w in s.winners && w.prizeId != prizeId
    ensures Distinct(s.prizes) ==> Distinct(r.prizes)
    ensures Distinct(s.winners) ==> Distinct(r.winners)
  {
    Store(Filter(s.prizes, (p: Prize) => p.id != prizeId), s.participants,
          Filter(s.winners, (w: Winner) => w.prizeId != prizeId))
  }

  /** `deleteParticipant`: the participant and every winner record of them are removed; the rest stays in order. */
  function WithoutParticipant(s: Store, participantId: string): (r: Store)
    ensures r.prizes == s.prizes
    ensures forall p :: p in r.participants <==> p in s.participants && p.id != participantId
    ensures forall w :: w in r.winners <==> w in s.winners && w.participantId != participantId
    ensures Distinct(s.participants) ==> Distinct(r.participants)
    ensures Distinct(s.winners) ==> Distinct(r.winners)
  {
    Store(s.prizes, Filter(s.participants, (p: Participant) => p.id != participantId),
          Filter(s.winners, (w: Winner) => w.participantId != participantId))
  }

  /** With a fresh id, adding a prize keeps the invariant exactly when its quantity is not negative. */
  lemma AddPrizeKeepsInv(s: Store, draft: PrizeDraft, id: string)
    requires Inv(s) && !HasPrize(s.prizes, id)
    ensures Inv(WithPrize(s, draft, id)) <==> draft.quantity >= 0
  {
    var s' := WithPrize(s, draft, id);
    assert s'.prizes[|s.prizes|].quantity == draft.quantity;
    if draft.quantity >= 0 {
      forall i, j | 0 <= i < j < |s'.prizes| ensures PrizeKey(s'.prizes[i]) != PrizeKey(s'.prizes[j]) {
        if j == |s.prizes| {
          assert s'.prizes[i] in s.prizes;
        }
      }
      forall w | w in s'.winners ensures HasPrize(s'.prizes, w.prizeId) {
        var p :| p in s.prizes && p.id == w.prizeId;
        assert p in s'.prizes;
      }
    }
  }

  /** With a fresh id, adding a participant keeps the invariant. */
  lemma AddParticipantKeepsInv(s: Store, draft: ParticipantDraft, id: string)
    requires Inv(s) && !HasParticipant(s.participants, id)
    ensures Inv(WithParticipant(s, draft, id))
  {
    var s' := WithParticipant(s, draft, id);
    forall i, j | 0 <= i < j < |s'.participants|
      ensures ParticipantKey(s'.participants[i]) != ParticipantKey(s'.participants[j])
    {
      if j == |s.participants| {
        assert s'.participants[i] in s.participants;
      }
    }
    forall w | w in s'.winners ensures HasParticipant(s'.participants, w.participantId) {
      var p :| p in s.participants && p.id == w.participantId;
      assert p in s'.participants;
    }
  }

  /** Deleting a prize keeps the invariant and leaves no record of it behind. */
  lemma DeletePrizeKeepsInv(s: Store, prizeId: string)
    requires Inv(s)
    ensures var s' := WithoutPrize(s, prizeId);
      Inv(s') && !HasPrize(s'.prizes, prizeId) && forall w :: w in s'.winners ==> w.prizeId != prizeId
  {
    var s' := WithoutPrize(s, prizeId);
    UniqueKeysDistinct(s.prizes, PrizeKey);
    UniqueKeysDistinct(s.winners, WinnerPair);
    DistinctFromUniqueKeys(s'.prizes, s.prizes, PrizeKey);
    DistinctFromUniqueKeys(s'.winners, s.winners, WinnerPair);
    forall i | 0 <= i < |s'.prizes| ensures s'.prizes[i].quantity >= 0 {
      assert s'.prizes[i] in s.prizes;
    }
    forall w | w in s'.winners ensures HasPrize(s'.prizes, w.prizeId) {
      var p :| p in s.prizes && p.id == w.prizeId;
    }
  }

  /** Deleting a participant keeps the invariant and leaves no record of them behind. */
  lemma DeleteParticipantKeepsInv(s: Store, participantId: string)
    requires Inv(s)
    ensures var s' := WithoutParticipant(s, participantId);
      Inv(s') && !HasParticipant(s'.participants, participantId)
      && forall w :: w in s'.winners ==> w.participantId != participantId
  {
    var s' := WithoutParticipant(s, participantId);
    UniqueKeysDistinct(s.participants, ParticipantKey);
    UniqueKeysDistinct(s.winners, WinnerPair);
    DistinctFromUniqueKeys(s'.participants, s.participants, ParticipantKey);
    DistinctFromUniqueKeys(s'.winners, s.winners, WinnerPair);
    forall w | w in s'.winners ensures HasParticipant(s'.participants, w.participantId) {
      var p :| p in s.participants && p.id == w.participantId;
    }
  }

  // ---------------------------------------------------------------------
  // The hook's state cells

  const SamplePrizes: seq<Prize> := [
    Prize("1", "iPhone 15 Pro", "Smartphone terbaru Apple dengan teknologi Pro", 1, None),
    Prize("2", "Laptop Gaming", "Laptop gaming dengan spesifikasi tinggi", 1, None),
    Prize("3", "Voucher Belanja 500K", "Voucher belanja senilai 500 ribu rupiah", 5, None),
    Prize("4", "Headphone Wireless", "Headphone bluetooth premium", 3, None)
  ]

  const SampleParticipants: seq<Participant> := [
    Participant("1", "Ahmad Rizki", "ahmad.rizki@email.com", Some("081234567890"), None),
    Participant("2", "Siti Nurhaliza", "siti.nur@email.com", Some("081234567891"), None),
    Participant("3", "Budi Santoso", "budi.santoso@email.com", Some("081234567892"), None),
    Participant("4", "Dewi Lestari", "dewi.lestari@email.com", Some("081234567893"), None),
    Participant("5", "Eko Prasetyo", "eko.prasetyo@email.com", Some("081234567894"), None),
    Participant("6", "Fitri Handayani", "fitri.handayani@email.com", Some("081234567895"), None),
    Participant("7", "Gunawan Sutrisno", "gunawan.sutrisno@email.com", Some("081234567896"), None),
    Participant("8", "Hesti Purnamasari", "hesti.purnamasari@email.com", Some("081234567897"), None),
    Participant("9", "Indra Wijaya", "indra.wijaya@email.com", Some("081234567898"), None),
    Participant("10", "Joko Widodo", "joko.widodo@email.com", Some("081234567899"), None)
  ]

  class GiveawayStore {
    var prizes: seq<Prize>
    var participants: seq<Participant>
    var winners: seq<Winner>

    function State(): Store
      reads this
    {
      Store(prizes, participants, winners)
    }

    predicate Valid()
      reads this
    {
      Inv(State())
    }

    /** The hook starts from its sample prizes and participants and no winners. */
    constructor ()
      ensures prizes == SamplePrizes && participants == SampleParticipants && winners == []
      ensures Valid()
    {
      prizes := SamplePrizes;
      participants := SampleParticipants;
      winners := [];
      new;
      assert Valid() by {
        forall i, j | 0 <= i < j < |SamplePrizes| ensures PrizeKey(SamplePrizes[i]) != PrizeKey(SamplePrizes[j]) {
          assert |SamplePrizes[i].id| == 1 && |SamplePrizes[j].id| == 1;
          assert SamplePrizes[i].id[0] != SamplePrizes[j].id[0];
        }
        forall i, j | 0 <= i < j < |SampleParticipants|
          ensures ParticipantKey(SampleParticipants[i]) != ParticipantKey(SampleParticipants[j])
        {
          if j < 9 {
            assert SampleParticipants[i].id[0] != SampleParticipants[j].id[0];
          } else {
            assert |SampleParticipants[i].id| == 1;
          }
        }
      }
    }

    /**
     * `startDraw` for the selected prize and winner count (the hook's
     * `selectedPrizeId` and `winnerCount` cells), with the count at least 1.
     */
    method StartDraw(selectedPrizeId: Option<string>, winnerCount: int, rolls: seq<nat>, newId: nat -> string, clock: nat -> int)
      returns (outcome: DrawOutcome)
      requires winnerCount >= 1
      modifies this
      ensures (outcome, State()) == Draw(old(State()), selectedPrizeId, winnerCount, rolls, newId, clock)
      ensures old(Valid()) ==> Valid()
    {
      ghost var before := State();
      if selectedPrizeId.None? || selectedPrizeId.value == [] {
        return NoPrizeSelected;
      }
      var prizeId := selectedPrizeId.value;
      var selectedPrize := FindPrize(prizes, prizeId);
      if selectedPrize.None? {
        return PrizeNotFound;
      }
      var available := EligiblePool(participants, winners, prizeId);
      if |available| < winnerCount {
        return NotEnoughParticipants;
      }
      if selectedPrize.value.quantity < winnerCount {
        return NotEnoughQuantity;
      }
      var shuffled := Shuffle(available, rolls);
      var selected := JsSlice(shuffled, winnerCount);
      winners := winners + NewWinners(prizeId, selected, newId, clock);
      prizes := DecrementQuantity(prizes, prizeId, winnerCount);
      outcome := Drawn(selected);
      if Inv(before) {
        DrawPreservesInv(before, selectedPrizeId, winnerCount, rolls, newId, clock);
      }
    }

    /** `addPrize`, `id` standing for `Date.now().toString()`. */
    method AddPrize(draft: PrizeDraft, id: string)
      modifies this
      ensures State() == WithPrize(old(State()), draft, id)
      ensures old(Valid()) && !HasPrize(old(prizes), id) ==> (Valid() <==> draft.quantity >= 0)
    {
      if Valid() && !HasPrize(prizes, id) {
        AddPrizeKeepsInv(State(), draft, id);
      }
      prizes := prizes + [Prize(id, draft.name, draft.description, draft.quantity, draft.image)];
    }

    /** `deletePrize`, cascading to the prize's winner records. */
    method DeletePrize(prizeId: string)
      modifies this
      ensures State() == WithoutPrize(old(State()), prizeId)
      ensures old(Valid()) ==> Valid()
    {
      if Valid() {
        DeletePrizeKeepsInv(State(), prizeId);
      }
      prizes := Filter(prizes, (p: Prize) => p.id != prizeId);
      winners := Filter(winners, (w: Winner) => w.prizeId != prizeId);
    }

    /** `addParticipant`, `id` standing for `Date.now().toString()`. */
    method AddParticipant(draft: ParticipantDraft, id: string)
      modifies this
      ensures State() == WithParticipant(old(State()), draft, id)
      ensures old(Valid()) && !HasParticipant(old(participants), id) ==> Valid()
    {
      if Valid() && !HasParticipant(participants, id) {
        AddParticipantKeepsInv(State(), draft, id);
      }
      participants := participants + [Participant(id, draft.name, draft.email, draft.phone, draft.address)];
    }

    /** `deleteParticipant`, cascading to the participant's winner records. */
    method DeleteParticipant(participantId: string)
      modifies this
      ensures State() == WithoutParticipant(old(State()), participantId)
      ensures old(Valid()) ==> Valid()
    {
      if Valid() {
        DeleteParticipantKeepsInv(State(), participantId);
      }
      participants := Filter(participants, (p: Participant) => p.id != participantId);
      winners := Filter(winners, (w: Winner) => w.participantId != participantId);
    }
  }
}
