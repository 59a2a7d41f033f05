/**
 * The gadget record and the in-memory store that stands in for the `gadgets`
 * table.
 */
module GadgetModel {
  import opened Wrappers
  import opened Common
  import Codename

  /** A gadget id (a UUID string in the table). */
  type Id = string

  datatype Status = Available | Deployed | Destroyed | Decommissioned

  /** The literal the table and the API use for each status. */
  function StatusName(st: Status): string {
    match st
    case Available => "Available"
    case Deployed => "Deployed"
    case Destroyed => "Destroyed"
    case Decommissioned => "Decommissioned"
  }

  /**
   * How the status column reads a string: one of the four names, or a
   * rejection of the write (the column takes the four names only).
   */
  function ParseStatus(s: string): (r: Option<Status>)
    ensures r.Some? <==> s in {"Available", "Deployed", "Destroyed", "Decommissioned"}
  {
    if s == "Available" then Some(Available)
    else if s == "Deployed" then Some(Deployed)
    else if s == "Destroyed" then Some(Destroyed)
    else if s == "Decommissioned" then Some(Decommissioned)
    else None
  }

  /** `ParseStatus` and `StatusName` are inverse to each other, in both directions. */
  lemma StatusNameRoundTrip(st: Status, s: string)
    ensures ParseStatus(StatusName(st)) == Some(st)
    ensures ParseStatus(s) == Some(st) ==> s == StatusName(st)
  {
  }

  datatype Gadget = Gadget(
    id: Id,
    name: string,
    codename: string,
    description: Option<string>,
    status: Status,
    createdById: UserId,
    createdAt: Time,
    updatedAt: Time,
    decommissionedAt: Option<Time>)

  type Store = map<Id, Gadget>

  /** Every row is stored under its own id. */
  ghost predicate WellKeyed(store: Store) {
    forall k :: k in store ==> store[k].id == k
  }

  /** Every stored codename follows the generator's grammar. */
  ghost predicate CodenamesWellFormed(store: Store) {
    forall k :: k in store ==> Codename.IsCodename(store[k].codename)
  }

  /** The invariant every handler preserves. */
  ghost predicate Valid(store: Store) {
    WellKeyed(store) && CodenamesWellFormed(store)
  }

  /** The codenames already in use, which the creation loop checks against. */
  function Codenames(store: Store): set<string> {
    set k | k in store :: store[k].codename
  }

  /** `Math.floor(Math.random() * 31)`: one random draw for the success probability. */
  type Roll = r: int | 0 <= r < 31

  /** The ephemeral `missionSuccessProbability` attached to a gadget in a response. */
  function Probability(roll: Roll): (p: int)
    ensures 70 <= p <= 100
  {
    roll + 70
  }

  /** Every percentage in 70..100 is the probability of some draw. */
  lemma ProbabilityOnto(p: int)
    requires 70 <= p <= 100
    ensures exists roll: Roll :: Probability(roll) == p
  {
    var roll: Roll := p - 70;
    assert Probability(roll) == p;
  }
}
