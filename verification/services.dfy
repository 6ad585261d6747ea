/** `PokemonAPIService`: one GET per call, the classification of its
    outcome into the `(pokemon, success, error)` triple, the request-log rows
    it writes, the upsert of the fetched record and the JSON file it saves.
    The network, the database and the file storage are inputs: the GET's
    result is `HttpOutcome`, the table is `Db`, and `storageFails` says
    whether the file write raises. */
module Services {
  import opened Wrappers
  import opened Payload
  import opened Models
  import opened Database
  import Text

  const BaseUrl := "https://pokeapi.co/api/v2/pokemon/"
  const TimeoutSeconds := 30
  const UserAgent := "Django-Pokemon-App/1.0"

  /** A response body as `response.json()` sees it. */
  datatype Body = Parsed(data: Json) | Unparsable(reason: string)

  /** What the single `session.get` produced: a response, or one of the
      exceptions the service tells apart. `ConnectTimeout`, which `requests`
      makes both a timeout and a connection error, counts as `Timeout`
      because that handler comes first. */
  datatype HttpOutcome =
    | Response(status: int, body: Body)
    | Timeout
    | ConnectionError
    | OtherError(message: string)

  /** One GET as issued: URL, timeout in seconds, User-Agent header. */
  datatype HttpGet = HttpGet(url: string, timeoutSeconds: int, userAgent: string)

  /** Everything one `fetch_pokemon` call returns or leaves behind. */
  datatype FetchResult = FetchResult(
    pokemon: Option<Pokemon>,
    success: bool,
    error: Option<string>,
    log: seq<ApiRequest>,
    db: Db,
    savedFile: Option<string>,
    requests: seq<HttpGet>)

  // ---------------------------------------------------------------------
  // Messages

  function NotFoundMessage(name: string): string {
    "Pokemon '" + name + "' not found"
  }

  function StatusMessage(status: int): string {
    "API request failed with status " + Text.IntToDecimal(status)
  }

  function TimeoutMessage(name: string): string {
    "Request timeout for Pokemon: " + name
  }

  function ConnectionMessage(name: string): string {
    "Connection error when fetching Pokemon: " + name
  }

  function UnexpectedMessage(text: string): string {
    "Unexpected error: " + text
  }

  /** The `error_message` logged for a non-200 response. */
  function HttpErrorText(status: int): string {
    "HTTP " + Text.IntToDecimal(status)
  }

  /** The 404 message ends in "not found", whatever the name. */
  lemma NotFoundMessageSaysNotFound(name: string)
    ensures Text.ContainsSub(NotFoundMessage(name), "not found")
  {
    var msg := NotFoundMessage(name);
    var k := |msg| - |"not found"|;
    assert msg[k..] == "not found";
    assert Text.StartsWith(msg[k..], "not found");
  }

  /** Reads the number back out of `prefix + str(n)`. */
  function ParsePrefixedInt(s: string, prefix: string): Option<int> {
    match Text.Between(s, prefix, "")
    case None => None
    case Some(digits) => Text.ParseInt(digits)
  }

  lemma PrefixedIntRoundTrip(prefix: string, n: int)
    ensures ParsePrefixedInt(prefix + Text.IntToDecimal(n), prefix) == Some(n)
  {
    var digits := Text.IntToDecimal(n);
    Text.BetweenJoin(prefix, digits, "");
    assert prefix + digits + "" == prefix + digits;
    Text.DecimalRoundTrip(n);
  }

  /** The status code can be read back from both texts that carry it. */
  lemma StatusTextsRoundTrip(status: int)
    ensures ParsePrefixedInt(HttpErrorText(status), "HTTP ") == Some(status)
    ensures ParsePrefixedInt(StatusMessage(status), "API request failed with status ") == Some(status)
  {
    PrefixedIntRoundTrip("HTTP ", status);
    PrefixedIntRoundTrip("API request failed with status ", status);
  }

  /** The failure classes the returned message distinguishes. */
  datatype FailureKind = NotFound | BadStatus | TimedOut | ConnectionFailed | Unexpected

  /** Recovers the failure class from a message: the five message forms
      begin with five different letters. */
  function ClassifyMessage(msg: string): Option<FailureKind> {
    if Text.StartsWith(msg, "Pokemon '") && Text.EndsWith(msg, "' not found") then Some(NotFound)
    else if Text.StartsWith(msg, "API request failed with status ") then Some(BadStatus)
    else if Text.StartsWith(msg, "Request timeout for Pokemon: ") then Some(TimedOut)
    else if Text.StartsWith(msg, "Connection error when fetching Pokemon: ") then Some(ConnectionFailed)
    else if Text.StartsWith(msg, "Unexpected error: ") then Some(Unexpected)
    else None
  }

  /** The class a failed call falls into, read off the GET's outcome. */
  function ExpectedKind(outcome: HttpOutcome): FailureKind {
    match outcome
    case Response(status, _) =>
      if status == 404 then NotFound else if status != 200 then BadStatus else Unexpected
    case Timeout => TimedOut
    case ConnectionError => ConnectionFailed
    case OtherError(_) => Unexpected
  }

  // ---------------------------------------------------------------------
  // Log rows

  /** The row logged for a received response: success exactly on 200, the
      status code recorded, an empty error text exactly on 200 and
      otherwise `HTTP <code>`, a body present exactly on 200. */
  predicate ResponseRecord(rec: ApiRequest, name: string, status: int) {
    && rec.pokemonName == name
    && rec.success == (status == 200)
    && rec.httpStatusCode == Some(status)
    && (rec.errorMessage == "" <==> status == 200)
    && (status != 200 ==> ParsePrefixedInt(rec.errorMessage, "HTTP ") == Some(status))
    && (rec.responseData.Some? <==> status == 200)
  }

  /** The row `_log_error` writes: a failure with no status and no body. */
  predicate ErrorRecord(rec: ApiRequest, name: string, msg: string) {
    rec.pokemonName == name && !rec.success && rec.errorMessage == msg
    && rec.httpStatusCode.None? && rec.responseData.None?
  }

  /** `_log_error(name, message)`. */
  function LogError(name: string, message: string): (rec: ApiRequest)
    ensures ErrorRecord(rec, name, message)
  {
    ApiRequest(name, false, message, None, None)
  }

  function LogResponse(name: string, status: int, data: Option<Json>): (rec: ApiRequest)
    requires data.Some? <==> status == 200
    ensures ResponseRecord(rec, name, status)
    // the parsed body of a 200 response is the one kept
    ensures rec.responseData == data
  {
    if status == 200 then ApiRequest(name, true, "", Some(status), data)
    else
      StatusTextsRoundTrip(status);
      ApiRequest(name, false, HttpErrorText(status), Some(status), None)
  }

  // ---------------------------------------------------------------------
  // Saving the payload

  /** `str(v)` for the scalar values; lists and objects are not rendered. */
  function PyStr(v: Json): Option<string> {
    match v
    case Null => Some("None")
    case Bool(b) => Some(if b then "True" else "False")
    case Num(n) => Some(Text.IntToDecimal(n))
    case Str(s) => Some(s)
    case _ => None
  }

  function SaveFileName(name: string, idText: string): string {
    "pokemon_data/" + name + "_" + idText + ".json"
  }

  /** Reads a saved file's path back into the Pokemon name and number; the
      number follows the LAST underscore, since names may contain one. */
  function ParseSaveFileName(path: string): Option<(string, int)> {
    match Text.Between(path, "pokemon_data/", ".json")
    case None => None
    case Some(stem) =>
      match Text.SplitLast(stem, '_')
      case None => None
      case Some((name, digits)) =>
        match Text.ParseInt(digits)
        case None => None
        case Some(id) => Some((name, id))
  }

  lemma SaveFileNameRoundTrip(name: string, id: int)
    ensures ParseSaveFileName(SaveFileName(name, Text.IntToDecimal(id))) == Some((name, id))
  {
    var digits := Text.IntToDecimal(id);
    var stem := name + "_" + digits;
    Text.BetweenJoin("pokemon_data/", stem, ".json");
    assert SaveFileName(name, digits) == "pokemon_data/" + stem + ".json";
    assert forall k | 0 <= k < |digits| :: digits[k] != '_';
    Text.SplitLastJoin(name, '_', digits);
    assert name + ['_'] + digits == stem;
    Text.DecimalRoundTrip(id);
  }

  /** `_save_json_to_file`: the path written, or `None` when reading
      `data['id']` or the storage write raised (both are swallowed). */
  function SaveJsonToFile(data: Json, name: string, storageFails: bool): (r: Option<string>)
    ensures storageFails || Subscript(data, "id").Raise? ==> r.None?
    ensures r.Some? ==> (Subscript(data, "id").Ok? && PyStr(Subscript(data, "id").value).Some?)
    ensures (!storageFails && Subscript(data, "id").Ok? && Subscript(data, "id").value.Num?) ==>
              (r.Some? && ParseSaveFileName(r.value) == Some((name, Subscript(data, "id").value.n)))
  {
    match Subscript(data, "id")
    case Raise(_) => None
    case Ok(id) =>
      match PyStr(id)
      case None => None
      case Some(idText) =>
        if storageFails then None
        else
          var path := SaveFileName(name, idText);
          assert id.Num? ==> ParseSaveFileName(path) == Some((name, id.n)) by {
            if id.Num? { SaveFileNameRoundTrip(name, id.n); }
          }
          Some(path)
  }

  // ---------------------------------------------------------------------
  // Storing the record

  datatype StoreResult = Stored(db: Db, row: Pokemon) | StoreFailed(message: string)

  /** The range of a SQLite INTEGER: a signed 64-bit value. */
  predicate InSqliteRange(n: int) {
    -0x8000_0000_0000_0000 <= n <= 0x7FFF_FFFF_FFFF_FFFF
  }

  /** An integer column's value; the SQLite driver refuses an integer it
      cannot store in 64 bits. */
  function IntField(v: Json, field: string): Result<int, DbError> {
    if !v.Num? then Failure(NotAnInteger(field))
    else if !InSqliteRange(v.n) then Failure(IntegerOverflow(field))
    else Success(v.n)
  }

  function OptionalIntField(v: Json, field: string): Result<Option<int>, DbError> {
    if v.Null? then Success(None)
    else
      match IntField(v, field)
      case Failure(e) => Failure(e)
      case Success(n) => Success(Some(n))
  }

  function StringField(v: Json, field: string): Result<string, DbError> {
    if v.Str? then Success(v.s) else Failure(NotAString(field))
  }

  /** The fields `update_or_create` receives, or the first exception on the
      way: reading `id`, `name`, `height`, `weight` (KeyError, or TypeError
      when the payload is not an object), then converting them for the
      table's columns. `data.get('base_experience')` is `None` when absent. */
  function StoreFields(data: Json): (r: Result<(int, string, int, int, Option<int>), string>)
    ensures r.Success? ==> (
      && data.Obj?
      && Subscript(data, "id") == Ok(Num(r.value.0))
      && Subscript(data, "name") == Ok(Str(r.value.1))
      && Subscript(data, "height") == Ok(Num(r.value.2))
      && Subscript(data, "weight") == Ok(Num(r.value.3)))
    // the four subscripts in order: the first that raises decides the error
    ensures Subscript(data, "id").Raise? ==> r == Failure(ErrorText(Subscript(data, "id").error))
    ensures data.Obj? && HasKey(data.fields, "id") && !HasKey(data.fields, "name") ==>
      r == Failure(ErrorText(KeyError("name")))
    ensures (data.Obj? && HasKey(data.fields, "id") && HasKey(data.fields, "name")
             && !HasKey(data.fields, "height")) ==> r == Failure(ErrorText(KeyError("height")))
    ensures (data.Obj? && HasKey(data.fields, "id") && HasKey(data.fields, "name")
             && HasKey(data.fields, "height") && !HasKey(data.fields, "weight")) ==> r == Failure(ErrorText(KeyError("weight")))
    // then the column conversion, with `base_experience` defaulting to None
    ensures (data.Obj? && HasKey(data.fields, "id") && HasKey(data.fields, "name")
             && HasKey(data.fields, "height") && HasKey(data.fields, "weight")) ==>
      var c := Columns(Lookup(data.fields, "id").value, Lookup(data.fields, "name").value,
                       Lookup(data.fields, "height").value, Lookup(data.fields, "weight").value,
                       Lookup(data.fields, "base_experience").GetOr(Null));
      && (r.Success? <==> c.Success?)
      && (r.Success? ==> r.value == c.value)
      && (r.Failure? ==> r.error == DbErrorText(c.error))
  {
    match Subscript(data, "id")
    case Raise(e) => Failure(ErrorText(e))
    case Ok(idv) =>
    match Subscript(data, "name")
    case Raise(e) => Failure(ErrorText(e))
    case Ok(namev) =>
    match Subscript(data, "height")
    case Raise(e) => Failure(ErrorText(e))
    case Ok(heightv) =>
    match Subscript(data, "weight")
    case Raise(e) => Failure(ErrorText(e))
    case Ok(weightv) =>
    match Columns(idv, namev, heightv, weightv, Lookup(data.fields, "base_experience").GetOr(Null))
    case Failure(e) => Failure(DbErrorText(e))
    case Success(fields) => Success(fields)
  }

  /** The column values, converted in the order the fields are listed. */
  function Columns(idv: Json, namev: Json, heightv: Json, weightv: Json, basev: Json)
    : (r: Result<(int, string, int, int, Option<int>), DbError>)
    ensures r.Success? ==> (idv == Num(r.value.0) && namev == Str(r.value.1)
                            && heightv == Num(r.value.2) && weightv == Num(r.value.3)
                            && (basev.Num? ==> r.value.4 == Some(basev.n))
                            && (basev.Null? ==> r.value.4 == None))
    ensures r.Success? <==> (idv.Num? && InSqliteRange(idv.n) && namev.Str?
                             && heightv.Num? && InSqliteRange(heightv.n)
                             && weightv.Num? && InSqliteRange(weightv.n)
                             && (basev.Null? || (basev.Num? && InSqliteRange(basev.n))))
    ensures idv.Num? && !InSqliteRange(idv.n) ==> r == Failure(IntegerOverflow("pokemon_id"))
  {
    match IntField(idv, "pokemon_id")
    case Failure(e) => Failure(e)
    case Success(id) =>
    match StringField(namev, "name")
    case Failure(e) => Failure(e)
    case Success(name) =>
    match IntField(heightv, "height")
    case Failure(e) => Failure(e)
    case Success(height) =>
    match IntField(weightv, "weight")
    case Failure(e) => Failure(e)
    case Success(weight) =>
    match OptionalIntField(basev, "base_experience")
    case Failure(e) => Failure(e)
    case Success(base) => Success((id, name, height, weight, base))
  }


  /** `Pokemon.objects.update_or_create(pokemon_id=data['id'], defaults=...)`. */
  function Store(db: Db, data: Json): (r: StoreResult)
    ensures r.Stored? ==> (
      && StoreFields(data).Success?
      && r.row in r.db.rows && r.row.rawData == data
      && r.row.pokemonId == StoreFields(data).value.0
      && r.row.name == StoreFields(data).value.1)
    ensures StoreFields(data).Failure? ==> r == StoreFailed(StoreFields(data).error)
    // readable fields are stored exactly when no row with another Pokedex
    // number holds the name; otherwise the unique-name violation is reported
    ensures StoreFields(data).Success? && DbValid(db) ==> (
      var f := StoreFields(data).value;
      r.Stored? <==> forall j | 0 <= j < |db.rows| :: db.rows[j].name == f.1 ==> db.rows[j].pokemonId == f.0)
    ensures StoreFields(data).Success? && r.StoreFailed? ==>
      r.message == DbErrorText(DuplicateName(StoreFields(data).value.1))
    // the stored row carries exactly the fields read, and no other row changes
    ensures r.Stored? ==> (
      var f := StoreFields(data).value;
      && r.row == Pokemon(r.row.pk, f.0, f.1, f.2, f.3, f.4, data)
      && (forall p | p in db.rows && p.pokemonId != f.0 :: p in r.db.rows)
      && (forall p | p in r.db.rows :: p == r.row || p in db.rows))
    ensures r.Stored? && DbValid(db) ==> DbValid(r.db)
  {
    match StoreFields(data)
    case Failure(text) => StoreFailed(text)
    case Success((id, name, height, weight, base)) =>
      match Upsert(db, id, name, height, weight, base, data)
      case Failure(e) => StoreFailed(DbErrorText(e))
      case Success((db', row)) => Stored(db', row)
  }

  // ---------------------------------------------------------------------
  // fetch_pokemon

  function Failed(db: Db, name: string, request: HttpGet, earlier: seq<ApiRequest>,
                  msg: string, saved: Option<string>): (r: FetchResult)
    ensures !r.success && r.pokemon.None? && r.error == Some(msg) && r.db == db
    ensures r.log == earlier + [LogError(name, msg)]
  {
    FetchResult(None, false, Some(msg), earlier + [LogError(name, msg)], db, saved, [request])
  }

  /** A non-200 response: logged, and reported as "not found" for 404. */
  function Rejected(db: Db, name: string, request: HttpGet, status: int): (r: FetchResult)
    requires status != 200
    ensures r.requests == [request] && r.db == db && r.savedFile.None?
    ensures !r.success && r.pokemon.None?
    ensures r.error == Some(if status == 404 then NotFoundMessage(name) else StatusMessage(status))
    ensures |r.log| == 1 && ResponseRecord(r.log[0], name, status)
  {
    var record := LogResponse(name, status, None);
    var msg := if status == 404 then NotFoundMessage(name) else StatusMessage(status);
    FetchResult(None, false, Some(msg), [record], db, None, [request])
  }

  /** The 200 branch with a parsed body: log the response, save the file,
      store the record; a failed store is an unexpected error. */
  function Fetched(db: Db, name: string, request: HttpGet, data: Json, storageFails: bool): (r: FetchResult)
    ensures r.requests == [request]
    // success exactly when the record is stored; otherwise the store's error
    ensures r.success <==> Store(db, data).Stored?
    ensures !r.success ==> r.error == Some(UnexpectedMessage(Store(db, data).message))
    ensures r.success ==> (r.pokemon.Some? && r.error.None? && |r.log| == 1
                           && r.pokemon.value in r.db.rows && r.pokemon.value.rawData == data)
    // the returned table and record are the ones the store produced
    ensures r.success ==> r.db == Store(db, data).db && r.pokemon == Some(Store(db, data).row)
    ensures !r.success ==> (r.pokemon.None? && r.error.Some? && r.db == db && |r.log| == 2
                            && ErrorRecord(r.log[1], name, r.error.value)
                            && Text.StartsWith(r.error.value, "Unexpected error: "))
    ensures ResponseRecord(r.log[0], name, 200) && r.log[0].responseData == Some(data)
    ensures DbValid(db) ==> DbValid(r.db)
    ensures r.savedFile.Some? ==> !storageFails
    // the file is written before the record is stored, whatever the store does
    ensures r.savedFile == SaveJsonToFile(data, name, storageFails)
  {
    var record := LogResponse(name, 200, Some(data));
    var saved := SaveJsonToFile(data, name, storageFails);
    match Store(db, data)
    case StoreFailed(text) =>
      var msg := UnexpectedMessage(text);
      assert msg[..|"Unexpected error: "|] == "Unexpected error: ";
      Failed(db, name, request, [record], msg, saved)
    case Stored(db', row) => FetchResult(Some(row), true, None, [record], db', saved, [request])
  }

  /** `fetch_pokemon` from the point where the name has been normalised. */
  function FetchNormalized(db: Db, name: string, outcome: HttpOutcome, storageFails: bool): (r: FetchResult)
    // exactly one GET, to the URL built from the normalised name; no retry
    ensures r.requests == [HttpGet(BaseUrl + name + "/", TimeoutSeconds, UserAgent)]
    // the triple
    ensures r.success ==> (outcome.Response? && outcome.status == 200 && outcome.body.Parsed?
                           && r.pokemon.Some? && r.error.None?)
    ensures !r.success ==> r.pokemon.None? && r.error.Some? && r.db == db
    ensures outcome.Response? && outcome.status == 404 ==>
      r.error == Some(NotFoundMessage(name))
    ensures outcome.Response? && outcome.status != 200 && outcome.status != 404 ==>
      r.error == Some(StatusMessage(outcome.status))
    ensures outcome.Timeout? ==> r.error == Some(TimeoutMessage(name))
    ensures outcome.ConnectionError? ==> r.error == Some(ConnectionMessage(name))
    ensures outcome.OtherError? ==> r.error == Some(UnexpectedMessage(outcome.message))
    ensures outcome.Response? && outcome.status == 200 && outcome.body.Unparsable? ==>
      r.error == Some(UnexpectedMessage(outcome.body.reason))
    // a parsed 200 succeeds exactly when its payload can be stored
    ensures outcome.Response? && outcome.status == 200 && outcome.body.Parsed? ==>
      var stored := Store(db, outcome.body.data);
      && (r.success <==> stored.Stored?)
      && (!r.success ==> r.error == Some(UnexpectedMessage(stored.message)))
      && (r.success ==> r.db == stored.db && r.pokemon == Some(stored.row))
    // the saved file
    ensures r.savedFile.Some? ==> (!storageFails && outcome.Response? && outcome.status == 200
                                   && outcome.body.Parsed?)
    ensures outcome.Response? && outcome.status == 200 && outcome.body.Parsed? ==>
      r.savedFile == SaveJsonToFile(outcome.body.data, name, storageFails)
  {
    var request := HttpGet(BaseUrl + name + "/", TimeoutSeconds, UserAgent);
    match outcome
    case Timeout => Failed(db, name, request, [], TimeoutMessage(name), None)
    case ConnectionError => Failed(db, name, request, [], ConnectionMessage(name), None)
    case OtherError(m) => Failed(db, name, request, [], UnexpectedMessage(m), None)
    case Response(status, body) =>
      if status != 200 then Rejected(db, name, request, status)
      else
        match body
        case Unparsable(reason) => Failed(db, name, request, [], UnexpectedMessage(reason), None)
        case Parsed(data) => Fetched(db, name, request, data, storageFails)
  }

  /** A successful fetch has stored its record, and the table keeps its
      constraints whatever happens. */
  lemma FetchStoresRecord(db: Db, name: string, outcome: HttpOutcome, storageFails: bool)
    ensures var r := FetchNormalized(db, name, outcome, storageFails);
            && (r.success ==> r.pokemon.value in r.db.rows && r.pokemon.value.rawData == outcome.body.data)
            && (DbValid(db) ==> DbValid(r.db))
  {
    if outcome.Response? && outcome.status == 200 && outcome.body.Parsed? {
      var request := HttpGet(BaseUrl + name + "/", TimeoutSeconds, UserAgent);
      assert FetchNormalized(db, name, outcome, storageFails)
          == Fetched(db, name, request, outcome.body.data, storageFails);
    }
  }

  /** The request-log rows one fetch writes: one or two; the first
      describes the response when one was received and readable; a failure
      that is not a plain non-200 answer ends with its `_log_error` row. */
  lemma FetchLogRows(db: Db, name: string, outcome: HttpOutcome, storageFails: bool)
    ensures var r := FetchNormalized(db, name, outcome, storageFails);
            && 1 <= |r.log| <= 2
            && (outcome.Response? && (outcome.status != 200 || outcome.body.Parsed?) ==>
                  ResponseRecord(r.log[0], name, outcome.status))
            && (outcome.Response? && outcome.status != 200 ==> |r.log| == 1)
            && (r.success ==> |r.log| == 1)
            // a second row only when a parsed 200 could not be stored
            && (|r.log| == 2 <==> (outcome.Response? && outcome.status == 200 && outcome.body.Parsed?
                                  && !r.success))
            && (!r.success && (!outcome.Response? || outcome.status == 200) ==>
                  ErrorRecord(r.log[|r.log| - 1], name, r.error.value))
  {
    var request := HttpGet(BaseUrl + name + "/", TimeoutSeconds, UserAgent);
    if outcome.Response? && outcome.status == 200 && outcome.body.Parsed? {
      assert FetchNormalized(db, name, outcome, storageFails)
          == Fetched(db, name, request, outcome.body.data, storageFails);
    } else if outcome.Response? && outcome.status != 200 {
      assert FetchNormalized(db, name, outcome, storageFails) == Rejected(db, name, request, outcome.status);
    }
  }

  /** `PokemonAPIService.fetch_pokemon(pokemonName)`: the name is lower-cased
      and stripped before anything else happens. */
  function FetchPokemon(db: Db, pokemonName: string, outcome: HttpOutcome, storageFails: bool): (r: FetchResult)
    ensures r.requests == [HttpGet(BaseUrl + Text.Normalize(pokemonName) + "/", TimeoutSeconds, UserAgent)]
    ensures r == FetchNormalized(db, Text.Normalize(pokemonName), outcome, storageFails)
  {
    FetchNormalized(db, Text.Normalize(pokemonName), outcome, storageFails)
  }

  /** A failed file save is swallowed: it changes nothing but the file. */
  lemma SaveFailureIsSwallowed(db: Db, pokemonName: string, outcome: HttpOutcome)
    ensures var ok := FetchPokemon(db, pokemonName, outcome, false);
            var failed := FetchPokemon(db, pokemonName, outcome, true);
            && failed.savedFile.None?
            && failed == ok.(savedFile := None)
  {
    var name := Text.Normalize(pokemonName);
    if outcome.Response? && outcome.status == 200 && outcome.body.Parsed? {
      var request := HttpGet(BaseUrl + name + "/", TimeoutSeconds, UserAgent);
      FetchedIgnoresStorage(db, name, request, outcome.body.data);
    }
  }

  /** In the 200 branch only the saved path depends on the storage. */
  lemma FetchedIgnoresStorage(db: Db, name: string, request: HttpGet, data: Json)
    ensures Fetched(db, name, request, data, true) == Fetched(db, name, request, data, false).(savedFile := None)
  {
    assert SaveJsonToFile(data, name, true) == None;
  }


  /** Fetching an already normalised name is the same call. */
  lemma FetchNormalizedName(db: Db, pokemonName: string, outcome: HttpOutcome, storageFails: bool)
    ensures FetchPokemon(db, Text.Normalize(pokemonName), outcome, storageFails)
         == FetchPokemon(db, pokemonName, outcome, storageFails)
  {
    Text.NormalizeIdempotent(pokemonName);
  }

  /** A string whose first character differs from a prefix's lacks it. */
  lemma HeadDiffers(s: string, prefix: string)
    requires |s| > 0 && |prefix| > 0 && s[0] != prefix[0]
    ensures !Text.StartsWith(s, prefix)
  {
    if |prefix| <= |s| {
      assert s[..|prefix|][0] == s[0];
    }
  }

  /** Each message form is recognised as its own class. */
  lemma ClassifyNotFound(name: string)
    ensures ClassifyMessage(NotFoundMessage(name)) == Some(NotFound)
  {
    var msg := NotFoundMessage(name);
    assert msg == "Pokemon '" + (name + "' not found");
    assert msg[..|"Pokemon '"|] == "Pokemon '";
    assert msg[|msg| - |"' not found"|..] == "' not found";
  }

  lemma ClassifyStatus(status: int)
    ensures ClassifyMessage(StatusMessage(status)) == Some(BadStatus)
  {
    var msg := StatusMessage(status);
    assert msg[..|"API request failed with status "|] == "API request failed with status ";
    assert msg[0] == 'A';
  }

  lemma ClassifyTimeout(name: string)
    ensures ClassifyMessage(TimeoutMessage(name)) == Some(TimedOut)
  {
    var msg := TimeoutMessage(name);
    assert msg[..|"Request timeout for Pokemon: "|] == "Request timeout for Pokemon: ";
    assert msg[0] == 'R';
  }

  lemma ClassifyConnection(name: string)
    ensures ClassifyMessage(ConnectionMessage(name)) == Some(ConnectionFailed)
  {
    var msg := ConnectionMessage(name);
    assert msg[..|"Connection error when fetching Pokemon: "|] == "Connection error when fetching Pokemon: ";
    assert msg[0] == 'C';
  }

  lemma ClassifyUnexpected(text: string)
    ensures ClassifyMessage(UnexpectedMessage(text)) == Some(Unexpected)
  {
    var msg := UnexpectedMessage(text);
    assert msg[..|"Unexpected error: "|] == "Unexpected error: ";
    assert msg[0] == 'U';
    HeadDiffers(msg, "Connection error when fetching Pokemon: ");
  }

  /** The returned message tells the failure classes apart: timeouts,
      connection errors, unexpected exceptions, 404s and other statuses
      each yield a message of their own form. */
  lemma FailureMessageClassified(db: Db, pokemonName: string, outcome: HttpOutcome, storageFails: bool)
    ensures var r := FetchPokemon(db, pokemonName, outcome, storageFails);
            !r.success ==> ClassifyMessage(r.error.value) == Some(ExpectedKind(outcome))
  {
    var name := Text.Normalize(pokemonName);
    match outcome
    case Response(status, body) =>
      if status == 404 {
        ClassifyNotFound(name);
      } else if status != 200 {
        ClassifyStatus(status);
      } else {
        var r := FetchPokemon(db, pokemonName, outcome, storageFails);
        if !r.success {
          assert exists t :: r.error.value == UnexpectedMessage(t) by {
            match body
            case Unparsable(reason) =>
              assert r.error.value == UnexpectedMessage(reason);
            case Parsed(data) =>
              assert Store(db, data).StoreFailed?;
              assert r.error.value == UnexpectedMessage(Store(db, data).message);
          }
          var t :| r.error.value == UnexpectedMessage(t);
          ClassifyUnexpected(t);
        }
      }
    case Timeout => ClassifyTimeout(name);
    case ConnectionError => ClassifyConnection(name);
    case OtherError(m) => ClassifyUnexpected(m);
  }
}
