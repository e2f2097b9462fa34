/**
 The save rule of the quote list. A submitted quote that carries an identifier
 replaces every quote of the list with that identifier, with its update time
 refreshed; a submitted quote without one is stored at the front of the list
 under a freshly generated identifier, with its creation and update times set.
 The current time and the fresh identifier are parameters.
 */
module QuoteStore {
  import opened Wrappers
  import opened Quotes
  import opened QuoteIds
  import opened QuoteForm

  /** The record the update branch stores for a submitted quote. */
  function Stamped(q: Quote, now: string): Quote {
    q.(updatedAt := now)
  }

  /** The record the create branch stores for a submitted quote. */
  function Created(q: Quote, freshId: string, now: string): Quote {
    q.(id := freshId, createdAt := now, updatedAt := now)
  }

  /** The list mapped element by element, left to right: an element whose
      identifier is `id` becomes `replacement`, every other element stays. */
  function ReplaceById(quotes: seq<Quote>, id: string, replacement: Quote): (r: seq<Quote>)
    ensures |r| == |quotes|
    ensures forall i :: 0 <= i < |quotes| ==> r[i] == if quotes[i].id == id then replacement else quotes[i]
    decreases |quotes|
  {
    if quotes == [] then []
    else [if quotes[0].id == id then replacement else quotes[0]] + ReplaceById(quotes[1..], id, replacement)
  }

  /** The list after saving the submitted quote `q` at time `now`, where
      `freshId` is the identifier the create branch would generate. */
  function Save(quotes: seq<Quote>, q: Quote, now: string, freshId: string): (r: seq<Quote>)
    // Update branch: same length, matching elements become the stamped quote,
    // every other element is left where it was.
    ensures HasId(q) ==> |r| == |quotes|
    ensures HasId(q) ==> forall i :: 0 <= i < |quotes| && quotes[i].id == q.id ==> r[i] == Stamped(q, now)
    ensures HasId(q) ==> forall i :: 0 <= i < |quotes| && quotes[i].id != q.id ==> r[i] == quotes[i]
    // Create branch: one longer, the new record in front of the untouched list.
    ensures !HasId(q) ==> |r| == |quotes| + 1
    ensures !HasId(q) ==> r[0] == Created(q, freshId, now) && r[1..] == quotes
  {
    if HasId(q) then ReplaceById(quotes, q.id, Stamped(q, now))
    else [Created(q, freshId, now)] + quotes
  }

  /** The update branch never changes the identifier found at any position. */
  lemma {:induction false} SaveKeepsIdsInPlace(quotes: seq<Quote>, q: Quote, now: string, freshId: string)
    requires HasId(q)
    ensures var r := Save(quotes, q, now, freshId);
      |r| == |quotes| && forall i :: 0 <= i < |quotes| ==> r[i].id == quotes[i].id
  {
    var r := Save(quotes, q, now, freshId);
    forall i | 0 <= i < |quotes| ensures r[i].id == quotes[i].id {
      if quotes[i].id == q.id {
        assert r[i] == Stamped(q, now);
      } else {
        assert r[i] == quotes[i];
      }
    }
  }

  /** Saving a quote whose identifier is not in the list returns the list
      unchanged: the edit is silently dropped. */
  lemma {:induction false} SaveUnknownIdIsNoOp(quotes: seq<Quote>, q: Quote, now: string, freshId: string)
    requires HasId(q)
    requires q.id !in IdSet(quotes)
    ensures Save(quotes, q, now, freshId) == quotes
  {
    var r := Save(quotes, q, now, freshId);
    forall i | 0 <= i < |quotes| ensures r[i] == quotes[i] {
      assert quotes[i].id in IdSet(quotes);
    }
  }

  /** Saving the same quote twice at the same time gives the same list as
      saving it once. */
  lemma {:induction false} SaveIdempotent(quotes: seq<Quote>, q: Quote, now: string, freshId1: string, freshId2: string)
    requires HasId(q)
    ensures Save(Save(quotes, q, now, freshId1), q, now, freshId2) == Save(quotes, q, now, freshId1)
  {
    var once := Save(quotes, q, now, freshId1);
    var twice := Save(once, q, now, freshId2);
    forall i | 0 <= i < |once| ensures twice[i] == once[i] {
      if quotes[i].id == q.id {
        assert once[i] == Stamped(q, now);
      } else {
        assert once[i] == quotes[i];
      }
    }
  }

  /** On a list with distinct identifiers, saving a quote whose identifier is
      at position `k` replaces exactly that position. */
  lemma {:induction false} SaveUpdatesInPlace(quotes: seq<Quote>, q: Quote, now: string, freshId: string, k: nat)
    requires UniqueIds(quotes)
    requires k < |quotes| && quotes[k].id == q.id
    requires HasId(q)
    ensures Save(quotes, q, now, freshId) == quotes[k := Stamped(q, now)]
  {
    var r := Save(quotes, q, now, freshId);
    forall i | 0 <= i < |quotes| ensures r[i] == quotes[k := Stamped(q, now)][i] {
      // Uniqueness at i and k: no other index carries q's identifier.
      if i != k { assert quotes[i].id != quotes[k].id; }
    }
  }

  /** The update branch keeps the set of identifiers; the create branch adds
      the fresh identifier to it. */
  lemma {:induction false} SaveIdSet(quotes: seq<Quote>, q: Quote, now: string, freshId: string)
    ensures HasId(q) ==> IdSet(Save(quotes, q, now, freshId)) == IdSet(quotes)
    ensures !HasId(q) ==> IdSet(Save(quotes, q, now, freshId)) == IdSet(quotes) + {freshId}
  {
    var r := Save(quotes, q, now, freshId);
    if HasId(q) {
      SaveKeepsIdsInPlace(quotes, q, now, freshId);
      forall id | id in IdSet(r) ensures id in IdSet(quotes) {
        var i :| 0 <= i < |r| && r[i].id == id;
        assert quotes[i].id == id;
      }
      forall id | id in IdSet(quotes) ensures id in IdSet(r) {
        var i :| 0 <= i < |quotes| && quotes[i].id == id;
        assert r[i].id == id;
      }
    } else {
      forall id | id in IdSet(r) ensures id in IdSet(quotes) + {freshId} {
        var i :| 0 <= i < |r| && r[i].id == id;
        if i > 0 {
          assert r[i] == r[1..][i - 1] == quotes[i - 1];
        }
      }
      forall id | id in IdSet(quotes) + {freshId} ensures id in IdSet(r) {
        if id == freshId {
          assert r[0].id == id;
        } else {
          var i :| 0 <= i < |quotes| && quotes[i].id == id;
          assert r[i + 1] == r[1..][i] == quotes[i];
        }
      }
    }
  }

  /** Saving keeps identifiers pairwise distinct, provided the create branch
      is given an identifier not yet in the list. */
  lemma {:induction false} SavePreservesUniqueIds(quotes: seq<Quote>, q: Quote, now: string, freshId: string)
    requires UniqueIds(quotes)
    requires !HasId(q) ==> freshId !in IdSet(quotes)
    ensures UniqueIds(Save(quotes, q, now, freshId))
  {
    var r := Save(quotes, q, now, freshId);
    if HasId(q) {
      SaveKeepsIdsInPlace(quotes, q, now, freshId);
    } else {
      forall i, j | 0 <= i < j < |r| ensures r[i].id != r[j].id {
        assert r[j] == r[1..][j - 1] == quotes[j - 1];
        if i == 0 {
          assert quotes[j - 1].id in IdSet(quotes);
        } else {
          assert r[i] == r[1..][i - 1] == quotes[i - 1];
        }
      }
    }
  }

  /** The state the application keeps: identifiers pairwise distinct and none
      of them empty, so that every quote opened for editing saves through the
      update branch. */
  predicate WellFormed(quotes: seq<Quote>) {
    && UniqueIds(quotes)
    && forall i :: 0 <= i < |quotes| ==> HasId(quotes[i])
  }

  /** Saving with a generated identifier that is not yet in the list keeps the
      list well formed. */
  lemma {:induction false} SavePreservesWellFormed(quotes: seq<Quote>, q: Quote, now: string, randomText: string, clockText: string)
    requires WellFormed(quotes)
    requires Uid(randomText, clockText) !in IdSet(quotes)
    ensures WellFormed(Save(quotes, q, now, Uid(randomText, clockText)))
  {
    var freshId := Uid(randomText, clockText);
    var r := Save(quotes, q, now, freshId);
    SavePreservesUniqueIds(quotes, q, now, freshId);
    if HasId(q) {
      SaveKeepsIdsInPlace(quotes, q, now, freshId);
    } else {
      forall i | 0 <= i < |r| ensures HasId(r[i]) {
        if i > 0 {
          assert r[i] == r[1..][i - 1] == quotes[i - 1];
        }
      }
    }
  }

  /** Editing the quote at position `k` of a well-formed list through the form
      replaces that position only: the shown fields take the form's values, the
      update time becomes `now`, and the identifier, creation time and every
      other hidden field are kept. */
  lemma {:induction false} EditReplacesInPlace(quotes: seq<Quote>, k: nat, validUntil: string, f: FormFields, now: string, freshId: string)
    requires WellFormed(quotes)
    requires k < |quotes|
    ensures var r := Save(quotes, Submit(Some(quotes[k]), validUntil, f), now, freshId);
      && |r| == |quotes|
      && (forall i :: 0 <= i < |quotes| && i != k ==> r[i] == quotes[i])
      && Shown(r[k]) == f
      && r[k].updatedAt == now
      && SameHidden(r[k], quotes[k].(updatedAt := now))
  {
    var q := Submit(Some(quotes[k]), validUntil, f);
    SaveUpdatesInPlace(quotes, q, now, freshId, k);
  }

  /** A quote created through the blank form is stored in front of the list
      under a generated identifier; opening it again and saving the form
      updates it where it is instead of adding a second copy. */
  lemma {:induction false} CreateThenEdit(quotes: seq<Quote>, validUntil: string, f1: FormFields, f2: FormFields,
                                          now1: string, now2: string, randomText: string, clockText: string, freshId2: string)
    requires WellFormed(quotes)
    requires Uid(randomText, clockText) !in IdSet(quotes)
    ensures var created := Save(quotes, Submit(None, validUntil, f1), now1, Uid(randomText, clockText));
      var edited := Save(created, Submit(Some(created[0]), validUntil, f2), now2, freshId2);
      && WellFormed(created)
      && |created| == |quotes| + 1 && created[1..] == quotes
      && created[0].id == Uid(randomText, clockText)
      && Shown(created[0]) == f1
      && created[0].createdAt == now1 && created[0].updatedAt == now1
      && |edited| == |created| && edited[1..] == quotes
      && Shown(edited[0]) == f2
      && edited[0].id == created[0].id
      && edited[0].createdAt == now1 && edited[0].updatedAt == now2
  {
    var freshId := Uid(randomText, clockText);
    var created := Save(quotes, Submit(None, validUntil, f1), now1, freshId);
    SavePreservesWellFormed(quotes, Submit(None, validUntil, f1), now1, randomText, clockText);
    EditReplacesInPlace(created, 0, validUntil, f2, now2, freshId2);
    var edited := Save(created, Submit(Some(created[0]), validUntil, f2), now2, freshId2);
    assert edited[1..] == created[1..];
  }
}
