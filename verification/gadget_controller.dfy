/**
 * The gadget request handlers as functions from the store, the request, the
 * clock and the random draws to a status code, a response body and the new
 * store.
 */
module GadgetController {
  import opened Wrappers
  import opened Js
  import opened Common
  import opened GadgetModel
  import Codename
  import Confirmation
  import opened UpdateQuery
  import Listing

  /** The fields `createGadget` reads from the request body. */
  datatype CreateBody = CreateBody(name: Field, description: Field, status: Field)

  /** The `RETURNING` list of the insert, with the ephemeral probability. */
  datatype CreatedGadget = CreatedGadget(
    id: Id,
    name: string,
    codename: string,
    description: Option<string>,
    status: Status,
    createdAt: Time,
    updatedAt: Time,
    missionSuccessProbability: int)

  /** A listed row: `g.*`, the creator's email from the users join, and the probability. */
  datatype ListedGadget = ListedGadget(gadget: Gadget, creatorEmail: Option<string>, missionSuccessProbability: int)

  datatype Body =
    | Message(message: string)
    | GadgetList(message: string, count: nat, gadgets: seq<ListedGadget>)
    | GadgetCreated(message: string, created: CreatedGadget)
    | GadgetUpdated(message: string, gadget: Gadget, missionSuccessProbability: int)
    | GadgetDecommissioned(message: string, gadget: Gadget)
    | ConfirmationRequired(message: string, confirmationCode: string, warning: string)
    | GadgetDestroyed(message: string, gadget: Gadget, destructionTime: Time, confirmationCode: string)

  /** An HTTP status code, a JSON body, and the store after the request. */
  datatype Reply = Reply(code: int, body: Body, store: Store)

  const Retrieved := "Gadgets retrieved successfully"
  const NotFound := "Gadget not found"
  const NameRequired := "Gadget name is required"
  const AuthRequired := "User authentication required"
  const NoFields := "No fields to update"
  const AlreadyDestroyed := "Gadget already destroyed"
  const CodeRequired := "Confirmation code required for self-destruct sequence"
  const CodeWarning := "This code will be required to proceed with destruction"
  const BadCodeFormat := "Invalid confirmation code format. Expected 8 alphanumeric characters."

  // ---------------------------------------------------------------- list

  /** The status filter of the query string: none, one status, or a value the status column refuses. */
  datatype Filter = All | Only(status: Status) | Refused

  function FilterOf(status: Field): Filter {
    if !Truthy(status) then All
    else match ParseStatus(status.s)
      case Some(st) => Only(st)
      case None => Refused
  }

  function AsSelection(f: Filter): Option<Status>
    requires !f.Refused?
  {
    if f.Only? then Some(f.status) else None
  }

  /** The `LEFT JOIN users`: the creator's email, or NULL. */
  function CreatorEmail(emails: map<UserId, string>, id: UserId): Option<string> {
    if id in emails then Some(emails[id]) else None
  }

  /** The listed rows, in the given order, each with the creator's email and its own probability draw. */
  function Rows(store: Store, order: seq<Id>, emails: map<UserId, string>, rolls: nat -> Roll): (rows: seq<ListedGadget>)
    requires forall i :: 0 <= i < |order| ==> order[i] in store
    ensures |rows| == |order|
    ensures forall i :: 0 <= i < |order| ==>
      && rows[i].gadget == store[order[i]]
      && rows[i].creatorEmail == CreatorEmail(emails, store[order[i]].createdById)
      && 70 <= rows[i].missionSuccessProbability <= 100
  {
    var rows := seq(|order|, i requires 0 <= i < |order| => Row(store, order[i], emails, rolls(i)));
    assert forall i :: 0 <= i < |order| ==> rows[i] == Row(store, order[i], emails, rolls(i));
    rows
  }

  function Row(store: Store, id: Id, emails: map<UserId, string>, roll: Roll): (row: ListedGadget)
    requires id in store
    ensures row.gadget == store[id] && row.creatorEmail == CreatorEmail(emails, store[id].createdById)
    ensures 70 <= row.missionSuccessProbability <= 100
  {
    ListedGadget(store[id], CreatorEmail(emails, store[id].createdById), Probability(roll))
  }

  /** Row i is the gadget stored under `order[i]`, and `order` names every selected id exactly once. */
  ghost predicate ListedFrom(store: Store, selection: Option<Status>, emails: map<UserId, string>,
                             order: seq<Id>, rows: seq<ListedGadget>) {
    && Listing.Distinct(order)
    && (forall id :: id in order <==> id in Listing.SelectedIds(store, selection))
    && |rows| == |order|
    && (forall i :: 0 <= i < |order| ==>
          && order[i] in store && rows[i].gadget == store[order[i]]
          && rows[i].creatorEmail == CreatorEmail(emails, store[order[i]].createdById))
  }

  /** The rows are exactly the selected gadgets, each once. */
  ghost predicate ListsExactly(store: Store, selection: Option<Status>, emails: map<UserId, string>, rows: seq<ListedGadget>) {
    exists order :: ListedFrom(store, selection, emails, order, rows)
  }

  /** `ORDER BY g."createdAt" DESC` on the rows themselves. */
  ghost predicate RowsNewestFirst(rows: seq<ListedGadget>) {
    forall i, j :: 0 <= i < j < |rows| ==> rows[i].gadget.createdAt >= rows[j].gadget.createdAt
  }

  ghost predicate ProbabilitiesInRange(rows: seq<ListedGadget>) {
    forall i :: 0 <= i < |rows| ==> 70 <= rows[i].missionSuccessProbability <= 100
  }

  /** Rows built from a newest-first ordering of the selected ids list exactly the selection, newest first. */
  lemma RowsOfOrder(store: Store, selection: Option<Status>, order: seq<Id>, emails: map<UserId, string>, rolls: nat -> Roll)
    requires forall i :: 0 <= i < |order| ==> order[i] in store
    requires forall id :: id in order <==> id in Listing.SelectedIds(store, selection)
    requires Listing.Distinct(order)
    requires Listing.NewestFirst(store, order)
    ensures ListsExactly(store, selection, emails, Rows(store, order, emails, rolls))
    ensures RowsNewestFirst(Rows(store, order, emails, rolls))
    ensures ProbabilitiesInRange(Rows(store, order, emails, rolls))
  {
    var rows := Rows(store, order, emails, rolls);
    assert ListedFrom(store, selection, emails, order, rows);
    RowsKeepOrder(store, order, rows);
  }

  /** One listed row: a stored gadget that matches the filter, with its creator's email. */
  ghost predicate RowListed(store: Store, selection: Option<Status>, emails: map<UserId, string>, row: ListedGadget) {
    && Listing.Selected(row.gadget, selection)
    && row.creatorEmail == CreatorEmail(emails, row.gadget.createdById)
    && exists id :: id in store && store[id] == row.gadget
  }

  /**
   * What listing exactly means for the rows themselves: each row is a selected
   * stored gadget with its creator's email, and each selected gadget has a row.
   */
  lemma ListsExactlyMeans(store: Store, selection: Option<Status>, emails: map<UserId, string>, rows: seq<ListedGadget>)
    requires ListsExactly(store, selection, emails, rows)
    ensures forall i :: 0 <= i < |rows| ==> RowListed(store, selection, emails, rows[i])
    ensures forall id :: id in store && Listing.Selected(store[id], selection) ==>
      exists i :: 0 <= i < |rows| && rows[i].gadget == store[id]
  {
    var order :| ListedFrom(store, selection, emails, order, rows);
    RowsCoverSelection(store, selection, order, rows);
    forall i | 0 <= i < |rows|
      ensures RowListed(store, selection, emails, rows[i])
    {
      var id := order[i];
      assert id in order;
      Listing.InSelectedIds(store, selection, id);
      assert id in store && store[id] == rows[i].gadget;
    }
  }

  lemma RowsCoverSelection(store: Store, selection: Option<Status>, order: seq<Id>, rows: seq<ListedGadget>)
    requires forall id :: id in Listing.SelectedIds(store, selection) ==> id in order
    requires |rows| == |order|
    requires forall i :: 0 <= i < |order| ==> order[i] in store && rows[i].gadget == store[order[i]]
    ensures forall id :: id in store && Listing.Selected(store[id], selection) ==>
      exists i :: 0 <= i < |rows| && rows[i].gadget == store[id]
  {
    forall id | id in store && Listing.Selected(store[id], selection)
      ensures exists i :: 0 <= i < |rows| && rows[i].gadget == store[id]
    {
      Listing.InSelectedIds(store, selection, id);
      var i :| 0 <= i < |order| && order[i] == id;
      assert rows[i].gadget == store[id];
    }
  }

  lemma RowsKeepOrder(store: Store, order: seq<Id>, rows: seq<ListedGadget>)
    requires Listing.NewestFirst(store, order)
    requires |rows| == |order|
    requires forall i :: 0 <= i < |order| ==> order[i] in store && rows[i].gadget == store[order[i]]
    ensures RowsNewestFirst(rows)
  {
    forall i, j | 0 <= i < j < |rows|
      ensures rows[i].gadget.createdAt >= rows[j].gadget.createdAt
    {
      assert store[order[i]].createdAt >= store[order[j]].createdAt;
    }
  }

  /**
   * `getGadgets`: the gadgets of the requested status (all of them without a
   * truthy status), newest first, each with its own random probability;
   * `rolls(i)` is the draw for the i-th row.
   */
  method GetGadgets(store: Store, status: Field, emails: map<UserId, string>, rolls: nat -> Roll) returns (r: Reply)
    ensures r.store == store
    ensures r.code == 200 <==> !FilterOf(status).Refused?
    ensures r.code != 200 ==> r == Reply(500, Message(InternalError), store)
    ensures r.code == 200 ==>
      && r.body.GadgetList?
      && r.body.count == |r.body.gadgets|
      && r.body.message == Retrieved
      && ListsExactly(store, AsSelection(FilterOf(status)), emails, r.body.gadgets)
      && RowsNewestFirst(r.body.gadgets)
      && ProbabilitiesInRange(r.body.gadgets)
  {
    var filter := FilterOf(status);
    if filter.Refused? {
      return Reply(500, Message(InternalError), store);
    }
    var selection := AsSelection(filter);
    var order := Listing.OrderNewestFirst(store, Listing.SelectedIds(store, selection));
    var rows := Rows(store, order, emails, rolls);
    RowsOfOrder(store, selection, order, emails, rolls);
    r := Reply(200, GadgetList(Retrieved, |rows|, rows), store);
  }

  // ---------------------------------------------------------------- create

  /** `!userId` fails for a missing user and for the id 0. */
  predicate Authenticated(userId: Option<UserId>) {
    userId.Some? && userId.value != 0
  }

  /** `status = "Available"` applies only when the field is undefined; other non-names are refused by the column. */
  function InitialStatus(f: Field): (r: Option<Status>)
    ensures forall st :: r == Some(st) <==> (f.Undefined? && st == Available) || f == Text(StatusName(st))
  {
    match f
    case Undefined => Some(Available)
    case Null => None
    case Text(s) =>
      StatusNamesAreParsed(s);
      ParseStatus(s)
  }

  lemma StatusNamesAreParsed(s: string)
    ensures forall st :: ParseStatus(s) == Some(st) <==> s == StatusName(st)
  {
    forall st
      ensures ParseStatus(s) == Some(st) <==> s == StatusName(st)
    {
      StatusNameRoundTrip(st, s);
    }
  }

  /** The description column: a string, or NULL for `undefined` and `null`. */
  function DescriptionOf(f: Field): Option<string> {
    if f.Text? then Some(f.s) else None
  }

  /**
   * `createGadget`. `userId` is what the authentication middleware attached,
   * `newId` the value `gen_random_uuid()` yields, `picks(k)` the draws of the
   * k-th codename generation and `roll` the probability draw.
   */
  function CreateGadget(store: Store, body: CreateBody, userId: Option<UserId>, now: Time, newId: Id,
                        picks: nat -> Codename.Pick, roll: Roll): (r: Reply)
    ensures !Truthy(body.name) ==> r == Reply(400, Message(NameRequired), store)
    ensures Truthy(body.name) && !Authenticated(userId) ==> r == Reply(401, Message(AuthRequired), store)
    ensures r.code == 201 <==>
      Truthy(body.name) && Authenticated(userId) && InitialStatus(body.status).Some? && newId !in store
    ensures Truthy(body.name) && Authenticated(userId) && (InitialStatus(body.status).None? || newId in store) ==>
      r == Reply(500, Message(InternalError), store)
    ensures r.code != 201 ==> r.store == store
    ensures r.code == 201 ==>
      && r.store.Keys == store.Keys + {newId}
      && (forall id :: id in store ==> r.store[id] == store[id])
      && var g := r.store[newId];
      && g.id == newId && g.name == body.name.s && g.description == DescriptionOf(body.description)
      && g.status == InitialStatus(body.status).value
      && g.createdById == userId.value && g.createdAt == now && g.updatedAt == now
      && g.decommissionedAt.None?
      && g.codename == Codename.Choose(Codenames(store), Codename.Candidates(picks), 0).codename
      && Codename.Settled(Codenames(store), picks, g.codename)
      && r.body == GadgetCreated("Gadget created successfully",
           CreatedGadget(g.id, g.name, g.codename, g.description, g.status, g.createdAt, g.updatedAt, Probability(roll)))
  {
    if !Truthy(body.name) then Reply(400, Message(NameRequired), store)
    else if !Authenticated(userId) then Reply(401, Message(AuthRequired), store)
    else
      var choice := Codename.Choose(Codenames(store), Codename.Candidates(picks), 0);
      Codename.ChooseFromPicks(Codenames(store), picks);
      var status := InitialStatus(body.status);
      if status.None? || newId in store then Reply(500, Message(InternalError), store)
      else
        var g := Gadget(newId, body.name.s, choice.codename, DescriptionOf(body.description), status.value,
                        userId.value, now, now, None);
        Reply(201, GadgetCreated("Gadget created successfully",
                CreatedGadget(g.id, g.name, g.codename, g.description, g.status, g.createdAt, g.updatedAt, Probability(roll))),
              store[newId := g])
  }

  // ---------------------------------------------------------------- update

  /**
   * `updateGadget`: the dynamic statement is built with `Build` and run with
   * `Execute`; the contract states the outcome through `Patch`.
   */
  function UpdateGadget(store: Store, id: Id, body: UpdateBody, now: Time, roll: Roll): (r: Reply)
    ensures id !in store ==> r == Reply(404, Message(NotFound), store)
    ensures id in store && NothingToUpdate(body) ==> r == Reply(400, Message(NoFields), store)
    ensures id in store && !NothingToUpdate(body) && Patch(store[id], body, now).None? ==>
      r == Reply(500, Message(InternalError), store)
    ensures id in store && !NothingToUpdate(body) && Patch(store[id], body, now).Some? ==>
      && r.code == 200
      && r.store == store[id := Patch(store[id], body, now).value]
      && r.body == GadgetUpdated("Gadget updated successfully", r.store[id], Probability(roll))
  {
    if id !in store then Reply(404, Message(NotFound), store)
    else match Build(body, id)
      case None => Reply(400, Message(NoFields), store)
      case Some(q) =>
        BuildExecutesPatch(body, id, store, now);
        match Execute(q, store, now)
        case None => Reply(500, Message(InternalError), store)
        case Some(s) => Reply(200, GadgetUpdated("Gadget updated successfully", s[id], Probability(roll)), s)
  }

  // ---------------------------------------------------------------- decommission

  /** `deleteGadget`: a soft delete with no guard on the current status. */
  function DeleteGadget(store: Store, id: Id, now: Time): (r: Reply)
    ensures id !in store ==> r == Reply(404, Message(NotFound), store)
    ensures id in store ==>
      && r.code == 200
      && r.store.Keys == store.Keys
      && (forall k :: k in store && k != id ==> r.store[k] == store[k])
      && var g, g' := store[id], r.store[id];
      && g'.status == Decommissioned && g'.decommissionedAt == Some(now) && g'.updatedAt == now
      && g'.id == g.id && g'.name == g.name && g'.codename == g.codename && g'.description == g.description
      && g'.createdById == g.createdById && g'.createdAt == g.createdAt
      && r.body == GadgetDecommissioned("Gadget decommissioned successfully", g')
  {
    if id !in store then Reply(404, Message(NotFound), store)
    else
      var g := store[id].(status := Decommissioned, decommissionedAt := Some(now), updatedAt := now);
      Reply(200, GadgetDecommissioned("Gadget decommissioned successfully", g), store[id := g])
  }

  // ---------------------------------------------------------------- self-destruct

  /**
   * `selfDestruct`. `challenge` is the freshly generated code, which is only
   * ever shown, never stored or compared; `now` also stands for the
   * `destructionTime` clock.
   */
  function SelfDestruct(store: Store, id: Id, code: Field, now: Time, challenge: string): (r: Reply)
    ensures id !in store ==> r == Reply(404, Message(NotFound), store)
    ensures id in store && store[id].status == Destroyed ==> r == Reply(400, Message(AlreadyDestroyed), store)
    ensures id in store && store[id].status != Destroyed && !Truthy(code) ==>
      r == Reply(400, ConfirmationRequired(CodeRequired, challenge, CodeWarning), store)
    ensures id in store && store[id].status != Destroyed && Truthy(code) && !Confirmation.WellFormedCode(code.s) ==>
      r == Reply(400, Message(BadCodeFormat), store)
    ensures r.code == 200 <==>
      id in store && store[id].status != Destroyed && code.Text? && Confirmation.WellFormedCode(code.s)
    ensures r.code != 200 ==> r.store == store
    ensures r.code == 200 ==>
      && r.store.Keys == store.Keys
      && (forall k :: k in store && k != id ==> r.store[k] == store[k])
      && var g, g' := store[id], r.store[id];
      && g'.status == Destroyed && g'.updatedAt == now
      && g'.id == g.id && g'.name == g.name && g'.codename == g.codename && g'.description == g.description
      && g'.createdById == g.createdById && g'.createdAt == g.createdAt && g'.decommissionedAt == g.decommissionedAt
      && r.body == GadgetDestroyed("Self-destruct sequence completed for " + g.codename, g', now, code.s)
  {
    if id !in store then Reply(404, Message(NotFound), store)
    else if store[id].status == Destroyed then Reply(400, Message(AlreadyDestroyed), store)
    else if !Truthy(code) then Reply(400, ConfirmationRequired(CodeRequired, challenge, CodeWarning), store)
    else
      Confirmation.MatchesWellFormed(code.s);
      if !Confirmation.Matches(code.s) then Reply(400, Message(BadCodeFormat), store)
      else
        var g := store[id].(status := Destroyed, updatedAt := now);
        Reply(200, GadgetDestroyed("Self-destruct sequence completed for " + g.codename, g, now, code.s), store[id := g])
  }
}
