/**
 * The dynamic `UPDATE gadgets SET ... WHERE id = $n` statement that the update
 * handler assembles, with its positional `$k` placeholders, and the effect
 * that statement has on the store when the database runs it.
 */
module UpdateQuery {
  import opened Wrappers
  import opened Js
  import opened Common
  import opened GadgetModel

  /** The body of a partial update; every field may be absent. */
  datatype UpdateBody = UpdateBody(name: Field, description: Field, status: Field)

  datatype Column = NameColumn | DescriptionColumn | StatusColumn

  /** A query parameter: a string or SQL NULL (`undefined` and `null` both bind NULL). */
  datatype Param = PText(s: string) | PNull

  /** One entry of the SET list: `column = $k`, or `"updatedAt" = NOW()`. */
  datatype Assignment = Bind(column: Column, placeholder: nat) | StampUpdatedAt

  /** `UPDATE gadgets SET <sets> WHERE id = $<wherePlaceholder>` with its parameters. */
  datatype Query = Query(sets: seq<Assignment>, wherePlaceholder: nat, params: seq<Param>)

  /** The SET list and parameters while they are being assembled; `next` is `paramCount`. */
  datatype Draft = Draft(sets: seq<Assignment>, params: seq<Param>, next: nat)

  function ParamOf(f: Field): Param {
    match f
    case Text(s) => PText(s)
    case _ => PNull
  }

  /** Whether a column takes part in the update, each with its own presence test. */
  predicate Qualifies(body: UpdateBody, c: Column) {
    match c
    case NameColumn => Truthy(body.name)
    case DescriptionColumn => Defined(body.description)
    case StatusColumn => Truthy(body.status)
  }

  /** The request field a column is written from. */
  function FieldFor(body: UpdateBody, c: Column): Field {
    match c
    case NameColumn => body.name
    case DescriptionColumn => body.description
    case StatusColumn => body.status
  }

  /** `updates.push(`col = $${paramCount}`); params.push(v); paramCount++` */
  function Push(d: Draft, c: Column, v: Param): Draft {
    Draft(d.sets + [Bind(c, d.next)], d.params + [v], d.next + 1)
  }

  /** Appends a column when it passes its presence test. */
  function PushIf(d: Draft, body: UpdateBody, c: Column): Draft {
    if Qualifies(body, c) then Push(d, c, ParamOf(FieldFor(body, c))) else d
  }

  /** The SET entries and parameters for the qualifying fields, tested in the order name, description, status. */
  function Assemble(body: UpdateBody): Draft {
    var d0 := Draft([], [], 1);
    var d1 := PushIf(d0, body, NameColumn);
    var d2 := PushIf(d1, body, DescriptionColumn);
    PushIf(d2, body, StatusColumn)
  }

  function OnlyIf(body: UpdateBody, c: Column): seq<Column> {
    if Qualifies(body, c) then [c] else []
  }

  /** The columns that pass their presence tests, in the handler's order. */
  function Qualifying(body: UpdateBody): (cols: seq<Column>)
    ensures forall c :: c in cols <==> Qualifies(body, c)
    ensures forall i, j :: 0 <= i < j < |cols| ==> cols[i] != cols[j]
    ensures cols == [] <==> NothingToUpdate(body)
  {
    OnlyIf(body, NameColumn) + OnlyIf(body, DescriptionColumn) + OnlyIf(body, StatusColumn)
  }

  /** The draft binds `cols` in order: the i-th entry is `cols[i] = $(i+1)`, bound to that column's field. */
  ghost predicate Shaped(d: Draft, body: UpdateBody, cols: seq<Column>) {
    && |d.sets| == |cols| == |d.params|
    && d.next == |cols| + 1
    && forall i :: 0 <= i < |cols| ==>
         d.sets[i] == Bind(cols[i], i + 1) && d.params[i] == ParamOf(FieldFor(body, cols[i]))
  }

  lemma PushIfShaped(d: Draft, body: UpdateBody, cols: seq<Column>, c: Column)
    requires Shaped(d, body, cols)
    ensures Shaped(PushIf(d, body, c), body, cols + OnlyIf(body, c))
  {
  }

  lemma AssembleShaped(body: UpdateBody)
    ensures Shaped(Assemble(body), body, Qualifying(body))
  {
    var d0 := Draft([], [], 1);
    var d1 := PushIf(d0, body, NameColumn);
    var d2 := PushIf(d1, body, DescriptionColumn);
    PushIfShaped(d0, body, [], NameColumn);
    assert [] + OnlyIf(body, NameColumn) == OnlyIf(body, NameColumn);
    PushIfShaped(d1, body, OnlyIf(body, NameColumn), DescriptionColumn);
    PushIfShaped(d2, body, OnlyIf(body, NameColumn) + OnlyIf(body, DescriptionColumn), StatusColumn);
  }

  /** No field qualifies: the handler answers "No fields to update". */
  predicate NothingToUpdate(body: UpdateBody) {
    !Truthy(body.name) && !Defined(body.description) && !Truthy(body.status)
  }

  /** Some entry of the SET list writes column `c`. */
  predicate Assigns(q: Query, c: Column) {
    exists i :: 0 <= i < |q.sets| && q.sets[i].Bind? && q.sets[i].column == c
  }

  /** The SET list writes exactly the qualifying columns. */
  ghost predicate AssignsExactly(q: Query, body: UpdateBody) {
    forall c :: Assigns(q, c) <==> Qualifies(body, c)
  }

  /** Every placeholder of the SET list exists and binds its own column's request field. */
  ghost predicate BindsFields(q: Query, body: UpdateBody) {
    forall i :: 0 <= i < |q.sets| && q.sets[i].Bind? ==>
      && 1 <= q.sets[i].placeholder <= |q.params|
      && q.params[q.sets[i].placeholder - 1] == ParamOf(FieldFor(body, q.sets[i].column))
  }

  /**
   * The placeholder discipline: the k-th SET entry is `$k`, binding
   * `params[k-1]`; the list ends with the `updatedAt` stamp; the WHERE clause
   * uses the last placeholder `$n` with `n == |params|`, which binds the id.
   */
  ghost predicate WellNumbered(q: Query, id: Id) {
    && |q.sets| >= 2
    && |q.sets| == |q.params|
    && q.sets[|q.sets| - 1] == StampUpdatedAt
    && (forall i :: 0 <= i < |q.sets| - 1 ==> q.sets[i].Bind? && q.sets[i].placeholder == i + 1)
    && q.wherePlaceholder == |q.params|
    && q.params[q.wherePlaceholder - 1] == PText(id)
  }

  /**
   * The statement the handler sends, or `None` when no field qualifies. The
   * updatedAt stamp and the id are appended after the emptiness check.
   */
  function Build(body: UpdateBody, id: Id): (q: Option<Query>)
    ensures q.None? <==> NothingToUpdate(body)
    ensures q.Some? ==> WellNumbered(q.value, id)
    ensures q.Some? ==> AssignsExactly(q.value, body)
    ensures q.Some? ==> BindsFields(q.value, body)
  {
    AssembleShaped(body);
    FromDraft(Assemble(body), body, id)
  }

  /** The emptiness check on a finished draft, then `Finish`. */
  function FromDraft(d: Draft, body: UpdateBody, id: Id): (q: Option<Query>)
    requires Shaped(d, body, Qualifying(body))
    ensures q.None? <==> NothingToUpdate(body)
    ensures q.Some? ==> q.value == Finish(d, id)
    ensures q.Some? ==> WellNumbered(q.value, id)
    ensures q.Some? ==> AssignsExactly(q.value, body)
    ensures q.Some? ==> BindsFields(q.value, body)
  {
    if |d.sets| == 0 then None
    else
      FinishBindsFields(d, body, id);
      Some(Finish(d, id))
  }

  /** `updates.push(`"updatedAt" = NOW()`); params.push(id)`, and the WHERE clause on `$${paramCount}`. */
  function Finish(d: Draft, id: Id): Query {
    Query(d.sets + [StampUpdatedAt], d.next, d.params + [PText(id)])
  }

  lemma FinishBindsFields(d: Draft, body: UpdateBody, id: Id)
    requires Shaped(d, body, Qualifying(body))
    requires |d.sets| > 0
    ensures WellNumbered(Finish(d, id), id)
    ensures AssignsExactly(Finish(d, id), body)
    ensures BindsFields(Finish(d, id), body)
  {
    var cols := Qualifying(body);
    FinishNumbered(d, body, cols, id);
    FinishAssigns(d, body, cols, id);
    FinishParams(d, body, cols, id);
  }

  lemma FinishNumbered(d: Draft, body: UpdateBody, cols: seq<Column>, id: Id)
    requires Shaped(d, body, cols)
    requires |cols| > 0
    ensures WellNumbered(Finish(d, id), id)
  {
    var q := Finish(d, id);
    assert forall i :: 0 <= i < |d.sets| ==> q.sets[i] == d.sets[i];
  }

  /** The finished SET list binds exactly the columns of the draft. */
  lemma FinishAssigns(d: Draft, body: UpdateBody, cols: seq<Column>, id: Id)
    requires Shaped(d, body, cols)
    ensures forall c :: Assigns(Finish(d, id), c) <==> c in cols
  {
    var q := Finish(d, id);
    assert forall i :: 0 <= i < |d.sets| ==> q.sets[i] == d.sets[i];
    forall c
      ensures Assigns(q, c) <==> c in cols
    {
      if Assigns(q, c) {
        var i :| 0 <= i < |q.sets| && q.sets[i].Bind? && q.sets[i].column == c;
        assert cols[i] == c;
      }
      if c in cols {
        var i :| 0 <= i < |cols| && cols[i] == c;
        assert q.sets[i].Bind? && q.sets[i].column == c;
      }
    }
  }

  lemma FinishParams(d: Draft, body: UpdateBody, cols: seq<Column>, id: Id)
    requires Shaped(d, body, cols)
    ensures BindsFields(Finish(d, id), body)
  {
    var q := Finish(d, id);
    forall i | 0 <= i < |q.sets| && q.sets[i].Bind?
      ensures 1 <= q.sets[i].placeholder <= |q.params|
      ensures q.params[q.sets[i].placeholder - 1] == ParamOf(FieldFor(body, q.sets[i].column))
    {
      assert i < |d.sets|;
      assert q.sets[i] == d.sets[i] == Bind(cols[i], i + 1);
      assert q.params[i] == d.params[i];
    }
  }

  /** Writes one parameter into one column; `None` when the table refuses the value. */
  function SetColumn(g: Gadget, c: Column, p: Param): Option<Gadget> {
    match (c, p)
    case (NameColumn, PText(s)) => Some(g.(name := s))
    case (DescriptionColumn, PText(s)) => Some(g.(description := Some(s)))
    case (DescriptionColumn, PNull) => Some(g.(description := None))
    case (StatusColumn, PText(s)) =>
      (match ParseStatus(s)
       case Some(st) => Some(g.(status := st))
       case None => None)
    case _ => None
  }

  /** Runs the SET list over one row, left to right. */
  function ApplySets(g: Gadget, sets: seq<Assignment>, params: seq<Param>, now: Time): Option<Gadget>
    decreases |sets|
  {
    if sets == [] then Some(g)
    else
      var first := match sets[0]
        case StampUpdatedAt => Some(g.(updatedAt := now))
        case Bind(c, k) => if 1 <= k <= |params| then SetColumn(g, c, params[k - 1]) else None;
      match first
      case None => None
      case Some(g') => ApplySets(g', sets[1..], params, now)
  }

  /**
   * What the database does with the statement: the WHERE placeholder selects
   * the row; `None` means the statement fails and nothing is written.
   */
  function Execute(q: Query, store: Store, now: Time): Option<Store> {
    if !(1 <= q.wherePlaceholder <= |q.params|) then None
    else match q.params[q.wherePlaceholder - 1]
      case PNull => Some(store)
      case PText(id) =>
        if id !in store then Some(store)
        else match ApplySets(store[id], q.sets, q.params, now)
          case None => None
          case Some(g) => Some(store[id := g])
  }

  /**
   * The partial update stated field by field, independently of any query:
   * name if truthy, description if defined (null clears it), status if truthy
   * and a known status; updatedAt always. `None` when the status is refused.
   */
  function Patch(g: Gadget, body: UpdateBody, now: Time): (r: Option<Gadget>)
    ensures r.Some? ==>
      && r.value.id == g.id && r.value.codename == g.codename
      && r.value.createdById == g.createdById && r.value.createdAt == g.createdAt
      && r.value.decommissionedAt == g.decommissionedAt
      && r.value.updatedAt == now
    ensures r.None? <==> Truthy(body.status) && ParseStatus(body.status.s).None?
  {
    var name := if Truthy(body.name) then body.name.s else g.name;
    var description :=
      match body.description
      case Undefined => g.description
      case Null => None
      case Text(s) => Some(s);
    var status := if Truthy(body.status) then ParseStatus(body.status.s) else Some(g.status);
    match status
    case None => None
    case Some(st) => Some(g.(name := name, description := description, status := st, updatedAt := now))
  }

  /** Writes the qualifying request fields into a row one column at a time. */
  function PatchColumns(g: Gadget, body: UpdateBody, cols: seq<Column>): Option<Gadget>
    decreases |cols|
  {
    if cols == [] then Some(g)
    else match SetColumn(g, cols[0], ParamOf(FieldFor(body, cols[0])))
      case None => None
      case Some(g') => PatchColumns(g', body, cols[1..])
  }

  /** A SET list whose entries bind the columns' own fields runs as `PatchColumns`. */
  lemma {:induction false} ApplyBinds(g: Gadget, body: UpdateBody, cols: seq<Column>, sets: seq<Assignment>, params: seq<Param>, now: Time)
    requires |sets| == |cols|
    requires forall i :: 0 <= i < |sets| ==>
      && sets[i].Bind? && sets[i].column == cols[i]
      && 1 <= sets[i].placeholder <= |params|
      && params[sets[i].placeholder - 1] == ParamOf(FieldFor(body, cols[i]))
    ensures ApplySets(g, sets, params, now) == PatchColumns(g, body, cols)
    decreases |cols|
  {
    if cols != [] {
      var g' := SetColumn(g, cols[0], ParamOf(FieldFor(body, cols[0])));
      if g'.Some? {
        ApplyBinds(g'.value, body, cols[1..], sets[1..], params, now);
      }
    }
  }

  /** The handler's field order and presence tests, run column by column, give `Patch` (before the stamp). */
  lemma PatchColumnsQualifying(g: Gadget, body: UpdateBody, now: Time)
    ensures match PatchColumns(g, body, Qualifying(body))
      case None => Patch(g, body, now).None?
      case Some(g') => Patch(g, body, now) == Some(g'.(updatedAt := now))
  {
    var n, d, s := OnlyIf(body, NameColumn), OnlyIf(body, DescriptionColumn), OnlyIf(body, StatusColumn);
    var g1 := if Truthy(body.name) then g.(name := body.name.s) else g;
    assert PatchColumns(g, body, n) == Some(g1);
    var g2 :=
      match body.description
      case Undefined => g1
      case Null => g1.(description := None)
      case Text(x) => g1.(description := Some(x));
    assert PatchColumns(g1, body, d) == Some(g2);
    PatchColumnsConcat(g, body, n, d);
    PatchColumnsConcat(g, body, n + d, s);
  }

  lemma {:induction false} PatchColumnsConcat(g: Gadget, body: UpdateBody, a: seq<Column>, b: seq<Column>)
    ensures PatchColumns(g, body, a + b) ==
      match PatchColumns(g, body, a)
      case None => None
      case Some(g') => PatchColumns(g', body, b)
    decreases |a|
  {
    if a == [] {
      assert a + b == b;
    } else {
      assert (a + b)[0] == a[0];
      assert (a + b)[1..] == a[1..] + b;
      var g' := SetColumn(g, a[0], ParamOf(FieldFor(body, a[0])));
      if g'.Some? {
        PatchColumnsConcat(g'.value, body, a[1..], b);
      }
    }
  }

  /** Running the built SET list, stamp included, writes what `Patch` describes. */
  lemma ApplyBuilt(g: Gadget, body: UpdateBody, id: Id, now: Time)
    requires Build(body, id).Some?
    ensures ApplySets(g, Build(body, id).value.sets, Build(body, id).value.params, now) == Patch(g, body, now)
  {
    var d := Assemble(body);
    AssembleShaped(body);
    assert Build(body, id) == FromDraft(d, body, id);
    ApplyFinished(g, body, d, id, now);
  }

  lemma ApplyFinished(g: Gadget, body: UpdateBody, d: Draft, id: Id, now: Time)
    requires Shaped(d, body, Qualifying(body))
    ensures ApplySets(g, Finish(d, id).sets, Finish(d, id).params, now) == Patch(g, body, now)
  {
    ApplyFinishedColumns(g, body, d, Qualifying(body), id, now);
    PatchColumnsQualifying(g, body, now);
  }

  /** The finished SET list runs the draft's columns and then stamps `updatedAt`. */
  lemma ApplyFinishedColumns(g: Gadget, body: UpdateBody, d: Draft, cols: seq<Column>, id: Id, now: Time)
    requires Shaped(d, body, cols)
    ensures ApplySets(g, Finish(d, id).sets, Finish(d, id).params, now) ==
      match PatchColumns(g, body, cols)
      case None => None
      case Some(g') => Some(g'.(updatedAt := now))
  {
    var q := Finish(d, id);
    assert forall i :: 0 <= i < |d.params| ==> q.params[i] == d.params[i];
    ApplyConcat(g, d.sets, [StampUpdatedAt], q.params, now);
    ApplyBinds(g, body, cols, d.sets, q.params, now);
    match PatchColumns(g, body, cols)
    case None =>
    case Some(g') =>
      assert ApplySets(g', [StampUpdatedAt], q.params, now) == Some(g'.(updatedAt := now));
  }

  /** Running two SET lists in a row is running their concatenation. */
  lemma {:induction false} ApplyConcat(g: Gadget, a: seq<Assignment>, b: seq<Assignment>, params: seq<Param>, now: Time)
    ensures ApplySets(g, a + b, params, now) ==
      match ApplySets(g, a, params, now)
      case None => None
      case Some(g') => ApplySets(g', b, params, now)
    decreases |a|
  {
    if a != [] {
      assert (a + b)[0] == a[0];
      assert (a + b)[1..] == a[1..] + b;
      var first := match a[0]
        case StampUpdatedAt => Some(g.(updatedAt := now))
        case Bind(c, k) => if 1 <= k <= |params| then SetColumn(g, c, params[k - 1]) else None;
      if first.Some? {
        ApplyConcat(first.value, a[1..], b, params, now);
      }
    } else {
      assert a + b == b;
    }
  }

  /**
   * The built statement, run by the database, changes exactly the addressed
   * row, and changes it as `Patch` says; it fails exactly when `Patch` refuses.
   */
  lemma BuildExecutesPatch(body: UpdateBody, id: Id, store: Store, now: Time)
    requires id in store
    requires Build(body, id).Some?
    ensures Execute(Build(body, id).value, store, now).Some? <==> Patch(store[id], body, now).Some?
    ensures Patch(store[id], body, now).Some? ==>
      Execute(Build(body, id).value, store, now) == Some(store[id := Patch(store[id], body, now).value])
  {
    ApplyBuilt(store[id], body, id, now);
  }
}
