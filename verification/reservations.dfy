/** The reservation record and the table it is saved to. The seven text
    columns are modelled as one datatype shared by the in-progress draft and
    the saved rows; the table is an append-only sequence of rows whose ids
    are assigned as `INTEGER PRIMARY KEY AUTOINCREMENT` assigns them when
    nothing is ever deleted. */
module Reservations {

  /** The seven text columns, in table order. */
  datatype Details = Details(
    name: string,
    phone: string,
    email: string,
    guests: string,
    babySeats: string,
    date: string,
    time: string)

  /** Names one of the seven columns. */
  datatype Field = NameField | PhoneField | EmailField | GuestsField | BabySeatsField | DateField | TimeField

  /** The record a reset leaves behind: every column the empty string. */
  const Blank := Details("", "", "", "", "", "", "")

  function Get(d: Details, f: Field): string {
    match f
    case NameField => d.name
    case PhoneField => d.phone
    case EmailField => d.email
    case GuestsField => d.guests
    case BabySeatsField => d.babySeats
    case DateField => d.date
    case TimeField => d.time
  }

  /** `d` with column `f` set to `v`: the only column that changes is `f`. */
  function Put(d: Details, f: Field, v: string): (r: Details)
    ensures Get(r, f) == v
    ensures forall g :: g != f ==> Get(r, g) == Get(d, g)
  {
    match f
    case NameField => d.(name := v)
    case PhoneField => d.(phone := v)
    case EmailField => d.(email := v)
    case GuestsField => d.(guests := v)
    case BabySeatsField => d.(babySeats := v)
    case DateField => d.(date := v)
    case TimeField => d.(time := v)
  }

  /** One saved row: the auto-assigned id and the seven columns. */
  datatype Row = Row(id: nat, details: Details)

  /** The table's rows in insertion order. */
  type Store = seq<Row>

  /** Ids are positive and strictly increase in insertion order. */
  ghost predicate IdsIncreasing(store: Store) {
    && (forall i :: 0 <= i < |store| ==> store[i].id >= 1)
    && (forall i, j :: 0 <= i < j < |store| ==> store[i].id < store[j].id)
  }

  /** The largest id in the table, 0 for an empty table. */
  function MaxId(store: Store): (m: nat)
    ensures forall i :: 0 <= i < |store| ==> store[i].id <= m
    ensures |store| > 0 ==> exists i :: 0 <= i < |store| && store[i].id == m
    ensures |store| == 0 ==> m == 0
  {
    if |store| == 0 then 0
    else
      var m := MaxId(store[..|store| - 1]);
      var last := store[|store| - 1].id;
      if last > m then last else m
  }

  /** The id AUTOINCREMENT gives the next row when no row was ever deleted:
      one more than the largest id used so far. */
  function NextId(store: Store): (id: nat)
    ensures id >= 1
    ensures forall i :: 0 <= i < |store| ==> store[i].id < id
  {
    MaxId(store) + 1
  }

  /** `INSERT INTO reservations (...) VALUES (...)`: appends one row holding
      `d` under a fresh id; the rows already there are untouched. */
  function Insert(store: Store, d: Details): (r: Store)
    ensures |r| == |store| + 1
    ensures r[..|store|] == store
    ensures r[|store|].details == d
    ensures forall i :: 0 <= i < |store| ==> store[i].id < r[|store|].id
    ensures IdsIncreasing(store) ==> IdsIncreasing(r)
  {
    store + [Row(NextId(store), d)]
  }

  /** The first row of an empty table gets id 1. */
  lemma FirstIdIsOne(d: Details)
    ensures Insert([], d) == [Row(1, d)]
  {
  }

  /** In a table whose ids increase, the next id follows the last row's id. */
  lemma {:induction false} NextIdFollowsLast(store: Store)
    requires IdsIncreasing(store) && |store| > 0
    ensures NextId(store) == store[|store| - 1].id + 1
  {
    var i :| 0 <= i < |store| && store[i].id == MaxId(store);
    if i < |store| - 1 {
      assert store[i].id < store[|store| - 1].id;
    }
  }
}
