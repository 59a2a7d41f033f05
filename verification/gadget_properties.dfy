/**
 * Properties relating several gadget requests, and the store invariant every
 * handler keeps.
 */
module GadgetProperties {
  import opened Wrappers
  import opened Js
  import opened Common
  import opened GadgetModel
  import Codename
  import Confirmation
  import opened UpdateQuery
  import opened GadgetController

  /** Creation keeps the store valid: the new row sits under its id with a generated codename. */
  lemma CreatePreservesValid(store: Store, create: CreateBody, userId: Option<UserId>, now: Time, newId: Id,
                             picks: nat -> Codename.Pick, roll: Roll)
    requires Valid(store)
    ensures Valid(CreateGadget(store, create, userId, now, newId, picks, roll).store)
  {
  }

  /** An update keeps the store valid: it never touches the id or the codename. */
  lemma UpdatePreservesValid(store: Store, id: Id, update: UpdateBody, now: Time, roll: Roll)
    requires Valid(store)
    ensures Valid(UpdateGadget(store, id, update, now, roll).store)
  {
    var r := UpdateGadget(store, id, update, now, roll);
    if r.code == 200 {
      var g := Patch(store[id], update, now).value;
      assert r.store == store[id := g];
      assert g.codename == store[id].codename && g.id == store[id].id;
    }
  }

  /** Decommissioning keeps the store valid. */
  lemma DeletePreservesValid(store: Store, id: Id, now: Time)
    requires Valid(store)
    ensures Valid(DeleteGadget(store, id, now).store)
  {
    var r := DeleteGadget(store, id, now);
    if r.code == 200 {
      forall k | k in r.store
        ensures r.store[k].id == k && Codename.IsCodename(r.store[k].codename)
      {
        assert k in store;
        if k == id {
          assert r.store[k].codename == store[k].codename && r.store[k].id == store[k].id;
        } else {
          assert r.store[k] == store[k];
        }
      }
    }
  }

  /** Self-destruction keeps the store valid. */
  lemma SelfDestructPreservesValid(store: Store, id: Id, code: Field, now: Time, challenge: string)
    requires Valid(store)
    ensures Valid(SelfDestruct(store, id, code, now, challenge).store)
  {
    var r := SelfDestruct(store, id, code, now, challenge);
    if r.code == 200 {
      forall k | k in r.store
        ensures r.store[k].id == k && Codename.IsCodename(r.store[k].codename)
      {
        assert k in store;
        if k == id {
          assert r.store[k].codename == store[k].codename && r.store[k].id == store[k].id;
        } else {
          assert r.store[k] == store[k];
        }
      }
    }
  }

  /** A second decommission succeeds too, and leaves what a single one at the later time would. */
  lemma DecommissionTwice(store: Store, id: Id, t1: Time, t2: Time)
    requires id in store
    ensures var first := DeleteGadget(store, id, t1);
      var second := DeleteGadget(first.store, id, t2);
      && second.code == 200
      && second.store == DeleteGadget(store, id, t2).store
      && second.store[id].decommissionedAt == Some(t2)
  {
    var first := DeleteGadget(store, id, t1).store;
    var second := DeleteGadget(first, id, t2).store;
    var once := DeleteGadget(store, id, t2).store;
    assert second.Keys == once.Keys;
    assert second[id] == once[id];
  }

  /** Decommissioning is idempotent: repeating it at the same instant changes nothing more. */
  lemma DecommissionIdempotent(store: Store, id: Id, now: Time)
    requires id in store
    ensures var s := DeleteGadget(store, id, now).store;
      DeleteGadget(s, id, now).store == s
  {
    DecommissionTwice(store, id, now, now);
  }

  /** Once destroyed, a gadget refuses every further self-destruct request, whatever code it carries. */
  lemma DestroyOnlyOnce(store: Store, id: Id, code: Field, code': Field, t1: Time, t2: Time, c1: string, c2: string)
    requires SelfDestruct(store, id, code, t1, c1).code == 200
    ensures var s := SelfDestruct(store, id, code, t1, c1).store;
      SelfDestruct(s, id, code', t2, c2) == Reply(400, Message(AlreadyDestroyed), s)
  {
  }

  /** A well-formed code is accepted although no challenge was ever issued for it. */
  lemma AnyWellFormedCodeAccepted(store: Store, id: Id, now: Time, challenge: string)
    requires id in store && store[id].status != Destroyed
    ensures SelfDestruct(store, id, Text("AB12CD34"), now, challenge).code == 200
    ensures SelfDestruct(store, id, Text("AB12CD34"), now, challenge).store[id].status == Destroyed
  {
    var s := "AB12CD34";
    assert forall i :: 0 <= i < |s| ==> Confirmation.UpperAlnum(s[i]);
  }

  /** The challenge a code-less request returns is never what makes a later request succeed. */
  lemma ChallengeIsDecorative(store: Store, id: Id, code: Field, now: Time, c1: string, c2: string)
    ensures SelfDestruct(store, id, code, now, c1).store == SelfDestruct(store, id, code, now, c2).store
    ensures SelfDestruct(store, id, code, now, c1).code == SelfDestruct(store, id, code, now, c2).code
  {
  }

  /** Lower-case letters, seven characters or a trailing newline all fail the format check. */
  lemma MalformedCodesRefused(store: Store, id: Id, now: Time, challenge: string)
    requires id in store && store[id].status != Destroyed
    ensures SelfDestruct(store, id, Text("ab12cd34"), now, challenge).body == Message(BadCodeFormat)
    ensures SelfDestruct(store, id, Text("AB12CD3"), now, challenge).body == Message(BadCodeFormat)
    ensures SelfDestruct(store, id, Text("AB12CD34\n"), now, challenge).body == Message(BadCodeFormat)
  {
    assert !Confirmation.UpperAlnum("ab12cd34"[0]);
  }

  /** An empty or null description is still written; only an absent one is left alone. */
  lemma UpdateWritesEmptyDescription(store: Store, id: Id, now: Time, roll: Roll)
    requires id in store
    ensures var r := UpdateGadget(store, id, UpdateBody(Undefined, Text(""), Undefined), now, roll);
      r.code == 200 && r.store[id].description == Some("") && r.store[id].name == store[id].name
    ensures var r := UpdateGadget(store, id, UpdateBody(Undefined, Null, Undefined), now, roll);
      r.code == 200 && r.store[id].description == None && r.store[id].status == store[id].status
    ensures UpdateGadget(store, id, UpdateBody(Text(""), Undefined, Null), now, roll).code == 400
  {
  }

  /** A named gadget created by user 42. */
  lemma CreateDroneX(store: Store, now: Time, newId: Id, picks: nat -> Codename.Pick, roll: Roll)
    requires newId !in store
    ensures var r := CreateGadget(store, CreateBody(Text("Drone X"), Undefined, Undefined), Some(42), now, newId, picks, roll);
      && r.code == 201
      && r.store[newId].status == Available
      && r.store[newId].createdById == 42
      && Codename.IsCodename(r.store[newId].codename)
  {
  }

  /** The name check precedes the authentication check. */
  lemma NameCheckedBeforeUser(store: Store, now: Time, newId: Id, picks: nat -> Codename.Pick, roll: Roll)
    ensures CreateGadget(store, CreateBody(Undefined, Undefined, Undefined), None, now, newId, picks, roll).code == 400
  {
  }
}
