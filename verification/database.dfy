/** The `Pokemon` table as the ORM presents it: rows with a unique primary
    key, a unique Pokedex number and a unique name, read with
    `objects.get(...)` and written with `objects.update_or_create(...)`. */
module Database {
  import opened Wrappers
  import opened Payload
  import opened Models

  /** The table; `nextPk` is the key the next inserted row receives. */
  datatype Db = Db(rows: seq<Pokemon>, nextPk: nat)

  /** The table's constraints: keys below `nextPk`, and primary key,
      `pokemon_id` and `name` each unique. */
  predicate DbValid(db: Db) {
    && (forall i | 0 <= i < |db.rows| :: db.rows[i].pk < db.nextPk)
    && (forall i, j | 0 <= i < j < |db.rows| :: db.rows[i].pk != db.rows[j].pk)
    && (forall i, j | 0 <= i < j < |db.rows| :: db.rows[i].pokemonId != db.rows[j].pokemonId)
    && (forall i, j | 0 <= i < j < |db.rows| :: db.rows[i].name != db.rows[j].name)
  }

  /** What `objects.get(...)` yields: the single match, or one of the two
      exceptions it raises. */
  datatype RowLookup = Found(row: Pokemon) | DoesNotExist | MultipleObjectsReturned

  /** The projections the two lookups filter on. */
  function NameOf(p: Pokemon): string { p.name }
  function PkOf(p: Pokemon): nat { p.pk }

  /** The rows whose `key` equals `k`, in table order: the `WHERE` of
      `objects.get(...)` before it counts the matches. */
  function RowsWhere<K(==)>(rows: seq<Pokemon>, key: Pokemon -> K, k: K): (r: seq<Pokemon>)
    ensures forall p | p in r :: p in rows && key(p) == k
    ensures forall i | 0 <= i < |rows| :: key(rows[i]) == k ==> rows[i] in r
    ensures (forall i | 0 <= i < |rows| :: key(rows[i]) != k) ==> r == []
    ensures |r| <= |rows|
    decreases |rows|
  {
    if |rows| == 0 then []
    else
      var rest := RowsWhere(rows[1..], key, k);
      assert forall i | 1 <= i < |rows| :: rows[i] == rows[1..][i - 1];
      if key(rows[0]) == k then [rows[0]] + rest else rest
  }

  function Single(matches: seq<Pokemon>): RowLookup {
    if |matches| == 0 then DoesNotExist
    else if |matches| == 1 then Found(matches[0])
    else MultipleObjectsReturned
  }

  /** `Pokemon.objects.get(name=name)`. */
  function GetByName(db: Db, name: string): (r: RowLookup)
    ensures r.DoesNotExist? <==> forall i | 0 <= i < |db.rows| :: db.rows[i].name != name
    ensures r.Found? ==> r.row in db.rows && r.row.name == name
  {
    var m := RowsWhere(db.rows, NameOf, name);
    assert (exists i | 0 <= i < |db.rows| :: db.rows[i].name == name) ==> |m| > 0;
    Single(m)
  }

  /** `get_object_or_404(Pokemon, pk=pk)` before the 404 is raised. */
  function GetByPk(db: Db, pk: nat): (r: RowLookup)
    ensures r.DoesNotExist? <==> forall i | 0 <= i < |db.rows| :: db.rows[i].pk != pk
    ensures r.Found? ==> r.row in db.rows && r.row.pk == pk
  {
    var m := RowsWhere(db.rows, PkOf, pk);
    assert (exists i | 0 <= i < |db.rows| :: db.rows[i].pk == pk) ==> |m| > 0;
    Single(m)
  }

  /** Under the unique constraint a name lookup never sees two rows. */
  lemma GetByNameUnique(db: Db, name: string)
    requires DbValid(db)
    ensures !GetByName(db, name).MultipleObjectsReturned?
  {
    RowsWhereDistinct(db.rows, NameOf, name);
  }

  /** Primary keys are unique, so a key lookup never sees two rows. */
  lemma GetByPkUnique(db: Db, pk: nat)
    requires DbValid(db)
    ensures !GetByPk(db, pk).MultipleObjectsReturned?
  {
    RowsWhereDistinct(db.rows, PkOf, pk);
  }

  /** Rows whose keys are pairwise distinct match a given key at most once. */
  lemma {:induction false} RowsWhereDistinct<K>(rows: seq<Pokemon>, key: Pokemon -> K, k: K)
    requires forall i, j | 0 <= i < j < |rows| :: key(rows[i]) != key(rows[j])
    ensures |RowsWhere(rows, key, k)| <= 1
    decreases |rows|
  {
    if |rows| > 0 {
      var tail := rows[1..];
      assert forall i | 0 <= i < |tail| :: tail[i] == rows[i + 1];
      RowsWhereDistinct(tail, key, k);
      if key(rows[0]) == k {
        assert forall j | 0 <= j < |tail| :: key(tail[j]) != k;
        assert RowsWhere(tail, key, k) == [];
      }
    }
  }

  /** Why the ORM refused a write. */
  datatype DbError =
    | DuplicateName(name: string)
    | NotAnInteger(field: string)
    | IntegerOverflow(field: string)
    | NotAString(field: string)

  /** `str(e)` of the database exception; the wording is the SQLite
      backend's for the unique constraint and for an integer outside 64 bits,
      and a stand-in for type errors. */
  function DbErrorText(e: DbError): string {
    match e
    case DuplicateName(_) => "UNIQUE constraint failed: pokemon_api_pokemon.name"
    case NotAnInteger(f) => "Field '" + f + "' expected a number"
    case IntegerOverflow(_) => "Python int too large to convert to SQLite INTEGER"
    case NotAString(f) => "Field '" + f + "' expected a string"
  }

  /** Index of the row holding Pokedex number `id`. */
  function IndexById(rows: seq<Pokemon>, id: int): (r: Option<nat>)
    ensures r.Some? ==> r.value < |rows| && rows[r.value].pokemonId == id
    ensures r.None? ==> forall i | 0 <= i < |rows| :: rows[i].pokemonId != id
    decreases |rows|
  {
    if |rows| == 0 then None
    else if rows[0].pokemonId == id then Some(0)
    else
      match IndexById(rows[1..], id)
      case None => None
      case Some(k) => Some(k + 1)
  }

  /** Some row other than the one at `except` is called `name`. */
  predicate NameTaken(rows: seq<Pokemon>, name: string, except: int) {
    exists j | 0 <= j < |rows| :: j != except && rows[j].name == name
  }

  /** `update_or_create(pokemon_id=id, defaults=...)`: overwrite the row with
      that Pokedex number, or append a new row; the unique name constraint
      refuses a name another row holds. */
  function Upsert(db: Db, id: int, name: string, height: int, weight: int,
                  baseExperience: Option<int>, raw: Json): (r: Result<(Db, Pokemon), DbError>)
    ensures DbValid(db) ==> (r.Success? <==> forall j | 0 <= j < |db.rows| ::
                                db.rows[j].name == name ==> db.rows[j].pokemonId == id)
    ensures r.Failure? ==> r.error == DuplicateName(name)
    ensures r.Success? ==>
      var (db', row) := r.value;
      && row in db'.rows
      && row == Pokemon(row.pk, id, name, height, weight, baseExperience, raw)
      && (forall p | p in db.rows && p.pokemonId != id :: p in db'.rows)
      && (forall p | p in db'.rows :: p == row || p in db.rows)
    ensures r.Success? && DbValid(db) ==>
      && DbValid(r.value.0)
      && forall p | p in r.value.0.rows && p != r.value.1 :: p.pokemonId != id
    // an update keeps the row's primary key; a new row takes the next one
    ensures r.Success? && DbValid(db) ==>
      forall i | 0 <= i < |db.rows| && db.rows[i].pokemonId == id :: r.value.1.pk == db.rows[i].pk
    ensures r.Success? && (forall i | 0 <= i < |db.rows| :: db.rows[i].pokemonId != id) ==>
      r.value.1.pk == db.nextPk
  {
    match IndexById(db.rows, id)
    case Some(i) =>
      UpdateRefusal(db, i, name);
      if NameTaken(db.rows, name, i) then Failure(DuplicateName(name))
      else
        var row := Pokemon(db.rows[i].pk, id, name, height, weight, baseExperience, raw);
        UpdateKeeps(db, i, row);
        Success((Db(db.rows[i := row], db.nextPk), row))
    case None =>
      if NameTaken(db.rows, name, -1) then Failure(DuplicateName(name))
      else
        var row := Pokemon(db.nextPk, id, name, height, weight, baseExperience, raw);
        AppendKeeps(db, row);
        Success((Db(db.rows + [row], db.nextPk + 1), row))
  }

  /** Updating row `i` is refused exactly when a row with another Pokedex
      number holds the name. */
  lemma UpdateRefusal(db: Db, i: nat, name: string)
    requires i < |db.rows|
    ensures DbValid(db) ==> (NameTaken(db.rows, name, i) <==> exists j | 0 <= j < |db.rows| ::
                               db.rows[j].name == name && db.rows[j].pokemonId != db.rows[i].pokemonId)
  {
  }

  /** Overwriting row `i` with a row of the same key and number. */
  lemma UpdateKeeps(db: Db, i: nat, row: Pokemon)
    requires i < |db.rows|
    requires row.pk == db.rows[i].pk && row.pokemonId == db.rows[i].pokemonId
    requires !NameTaken(db.rows, row.name, i)
    ensures var rows' := db.rows[i := row];
      && row in rows'
      && (forall p | p in db.rows && p.pokemonId != row.pokemonId :: p in rows')
      && (forall p | p in rows' :: p == row || p in db.rows)
      && (DbValid(db) ==> DbValid(Db(rows', db.nextPk)))
      && (DbValid(db) ==> forall p | p in rows' && p != row :: p.pokemonId != row.pokemonId)
  {
    var rows' := db.rows[i := row];
    assert rows'[i] == row;
    assert forall k | 0 <= k < |rows'| && k != i :: rows'[k] == db.rows[k];
    forall p | p in db.rows && p.pokemonId != row.pokemonId ensures p in rows' {
      var k :| 0 <= k < |db.rows| && db.rows[k] == p;
      assert rows'[k] == p;
    }
  }

  /** Appending a row whose number and name no row holds, under the next key. */
  lemma AppendKeeps(db: Db, row: Pokemon)
    requires row.pk == db.nextPk
    requires forall j | 0 <= j < |db.rows| :: db.rows[j].pokemonId != row.pokemonId
    requires !NameTaken(db.rows, row.name, -1)
    ensures var rows' := db.rows + [row];
      && row in rows'
      && (forall p | p in db.rows :: p in rows')
      && (forall p | p in rows' :: p == row || p in db.rows)
      && (DbValid(db) ==> DbValid(Db(rows', db.nextPk + 1)))
      && (forall p | p in rows' && p != row :: p.pokemonId != row.pokemonId)
  {
    var rows' := db.rows + [row];
    assert rows'[|db.rows|] == row;
  }
}
