/** The views that decide something: the JSON endpoint (stored record
    first, then the fetch service, then 404 or 500 from the error text),
    the JSON download, and the search form's redirect. A view that raises
    is answered by Django with its generic 500 page (`ServerError`). */
module Views {
  import opened Wrappers
  import opened Payload
  import opened Models
  import opened Database
  import opened Services
  import Text

  // ---------------------------------------------------------------------
  // The record as the endpoint shows it

  /** A length or mass in tenths of a unit (decimetres, hectograms) in the
      whole unit: `height_in_meters` and `weight_in_kg`. */
  function Tenths(units: int): (r: real)
    ensures r * 10.0 == units as real
  {
    units as real / 10.0
  }

  /** The `data` object of a successful reply: the eleven keys `id`, `name`,
      `height`, `weight`, `height_meters`, `weight_kg`, `base_experience`,
      `types`, `abilities`, `hidden_abilities`, `base_stats`. */
  datatype PokemonData = PokemonData(
    id: int,
    name: string,
    height: int,
    weight: int,
    heightMeters: real,
    weightKg: real,
    baseExperience: Option<int>,
    types: seq<Json>,
    abilities: seq<Json>,
    hiddenAbilities: seq<Json>,
    baseStats: seq<(Json, Json)>)

  /** Builds the `data` object, evaluating the derived properties in key
      order; the first one that raises aborts the view. */
  function Describe(p: Pokemon): (r: Outcome<PokemonData>)
    ensures r.Ok? <==> (Types(p.rawData).Ok? && Abilities(p.rawData).Ok?
                        && HiddenAbilities(p.rawData).Ok? && BaseStats(p.rawData).Ok?)
    // the properties are evaluated in key order; the first that raises decides
    ensures Types(p.rawData).Raise? ==> r == Raise(Types(p.rawData).error)
    ensures Types(p.rawData).Ok? && Abilities(p.rawData).Raise? ==> r == Raise(Abilities(p.rawData).error)
    ensures (Types(p.rawData).Ok? && Abilities(p.rawData).Ok? && HiddenAbilities(p.rawData).Raise?) ==>
      r == Raise(HiddenAbilities(p.rawData).error)
    ensures (Types(p.rawData).Ok? && Abilities(p.rawData).Ok? && HiddenAbilities(p.rawData).Ok?
             && BaseStats(p.rawData).Raise?) ==> r == Raise(BaseStats(p.rawData).error)
    ensures r.Ok? ==> (
      && r.value.id == p.pokemonId && r.value.name == p.name
      && r.value.height == p.height && r.value.weight == p.weight
      && r.value.heightMeters * 10.0 == p.height as real
      && r.value.weightKg * 10.0 == p.weight as real
      && r.value.baseExperience == p.baseExperience
      && r.value.types == Types(p.rawData).value
      && r.value.abilities == Abilities(p.rawData).value
      && r.value.hiddenAbilities == HiddenAbilities(p.rawData).value
      && r.value.baseStats == BaseStats(p.rawData).value)
  {
    match Types(p.rawData)
    case Raise(e) => Raise(e)
    case Ok(ts) =>
    match Abilities(p.rawData)
    case Raise(e) => Raise(e)
    case Ok(abs) =>
    match HiddenAbilities(p.rawData)
    case Raise(e) => Raise(e)
    case Ok(hidden) =>
    match BaseStats(p.rawData)
    case Raise(e) => Raise(e)
    case Ok(stats) =>
      Ok(PokemonData(p.pokemonId, p.name, p.height, p.weight, Tenths(p.height), Tenths(p.weight),
                     p.baseExperience, ts, abs, hidden, stats))
  }

  // ---------------------------------------------------------------------
  // PokemonAPIView.get

  datatype ReplyBody = DataBody(data: PokemonData) | ErrorBody(error: string)

  datatype Reply =
    | JsonReply(status: int, body: ReplyBody)
    | ServerError(reason: string)

  /** The reply, the fetch made if any, and the table afterwards. */
  datatype ApiResult = ApiResult(reply: Reply, fetch: Option<FetchResult>, db: Db)

  /** `JsonResponse({'success': True, 'data': ...})` for a record. */
  function DataReply(p: Pokemon): (r: Reply)
    ensures r.JsonReply? <==> Describe(p).Ok?
    ensures r.JsonReply? ==> r.status == 200 && r.body == DataBody(Describe(p).value)
  {
    match Describe(p)
    case Ok(d) => JsonReply(200, DataBody(d))
    case Raise(e) => ServerError(ErrorText(e))
  }

  /** The 404-or-500 rule as written: decided by the error text. */
  function StatusFromMessage(error: string): (status: int)
    ensures status == 404 || status == 500
    ensures status == 404 <==> Text.ContainsSub(error, "not found")
  {
    if Text.ContainsSub(error, "not found") then 404 else 500
  }

  /** Answers a miss: fetch, then reply with the new record or the error. */
  function AfterMiss(db: Db, pokemonName: string, outcome: HttpOutcome, storageFails: bool,
                     failureStatus: string -> int): (r: ApiResult)
    ensures r.fetch == Some(FetchPokemon(db, pokemonName, outcome, storageFails))
    ensures r.db == r.fetch.value.db
    ensures r.fetch.value.success ==> r.reply == DataReply(r.fetch.value.pokemon.value)
    ensures !r.fetch.value.success ==>
      r.reply == JsonReply(failureStatus(r.fetch.value.error.value), ErrorBody(r.fetch.value.error.value))
    ensures r.fetch.value.success ==> r.fetch.value.pokemon.value in r.db.rows
    ensures DbValid(db) ==> DbValid(r.db)
  {
    FetchStoresRecord(db, Text.Normalize(pokemonName), outcome, storageFails);
    var f := FetchPokemon(db, pokemonName, outcome, storageFails);
    if f.success then ApiResult(DataReply(f.pokemon.value), Some(f), f.db)
    else ApiResult(JsonReply(failureStatus(f.error.value), ErrorBody(f.error.value)), Some(f), f.db)
  }

  /** `PokemonAPIView.get(request, pokemon_name)` as written: the stored
      record is looked up under the LOWER-CASED name only, and a failure is
      a 404 whenever its message contains "not found". */
  function ApiGet(db: Db, pokemonName: string, outcome: HttpOutcome, storageFails: bool): (r: ApiResult)
    // a stored record is served without any fetch
    ensures GetByName(db, Text.Lower(pokemonName)).Found? ==>
      r == ApiResult(DataReply(GetByName(db, Text.Lower(pokemonName)).row), None, db)
    // a miss makes exactly one GET
    ensures GetByName(db, Text.Lower(pokemonName)).DoesNotExist? ==>
      r.fetch.Some? && |r.fetch.value.requests| == 1 && r.db == r.fetch.value.db
    // ... and answers with the fetched record, or with the error as 404 or 500
    ensures GetByName(db, Text.Lower(pokemonName)).DoesNotExist? ==> (
      var f := FetchPokemon(db, pokemonName, outcome, storageFails);
      && r.fetch == Some(f)
      && (f.success ==> r.reply == DataReply(f.pokemon.value))
      && (!f.success ==> r.reply == JsonReply(StatusFromMessage(f.error.value), ErrorBody(f.error.value))))
    ensures r.fetch.None? ==> r.db == db
    // a failed fetch is answered with its message, as 404 or 500
    ensures r.reply.JsonReply? && r.reply.body.ErrorBody? ==> (
      && r.fetch.Some? && !r.fetch.value.success
      && r.fetch.value.error == Some(r.reply.body.error)
      && (r.reply.status == 404 <==> Text.ContainsSub(r.reply.body.error, "not found"))
      && (r.reply.status == 404 || r.reply.status == 500))
    ensures r.reply.JsonReply? && r.reply.body.DataBody? ==> r.reply.status == 200
    ensures DbValid(db) ==> DbValid(r.db)
  {
    match GetByName(db, Text.Lower(pokemonName))
    case Found(p) => ApiResult(DataReply(p), None, db)
    case MultipleObjectsReturned => ApiResult(ServerError("MultipleObjectsReturned"), None, db)
    case DoesNotExist => AfterMiss(db, pokemonName, outcome, storageFails, StatusFromMessage)
  }

  /** Both success branches reply with the same eleven-key object built
      from a record: a hit from the stored one, a miss from the new one. */
  lemma SuccessRepliesDescribeRecord(db: Db, pokemonName: string, outcome: HttpOutcome, storageFails: bool)
    ensures var r := ApiGet(db, pokemonName, outcome, storageFails);
            r.reply.JsonReply? && r.reply.body.DataBody? ==>
              exists p :: p in r.db.rows && Describe(p) == Ok(r.reply.body.data)
  {
    var r := ApiGet(db, pokemonName, outcome, storageFails);
    if r.reply.JsonReply? && r.reply.body.DataBody? {
      var p := if r.fetch.Some? then r.fetch.value.pokemon.value else GetByName(db, Text.Lower(pokemonName)).row;
      assert p in r.db.rows && Describe(p) == Ok(r.reply.body.data);
    }
  }

  /** An upstream 404 becomes a 404 reply carrying the service's message. */
  lemma UpstreamNotFoundIs404(db: Db, pokemonName: string, body: Body, storageFails: bool)
    requires GetByName(db, Text.Lower(pokemonName)).DoesNotExist?
    ensures ApiGet(db, pokemonName, Response(404, body), storageFails).reply
         == JsonReply(404, ErrorBody(NotFoundMessage(Text.Normalize(pokemonName))))
  {
    NotFoundMessageSaysNotFound(Text.Normalize(pokemonName));
  }

  /** Any other failing upstream status becomes a 500: the status message
      has no letter `n`, so it never contains "not found". */
  lemma UpstreamStatusIs500(db: Db, pokemonName: string, status: int, body: Body, storageFails: bool)
    requires status != 200 && status != 404
    requires GetByName(db, Text.Lower(pokemonName)).DoesNotExist?
    ensures ApiGet(db, pokemonName, Response(status, body), storageFails).reply
         == JsonReply(500, ErrorBody(StatusMessage(status)))
  {
    var msg := StatusMessage(status);
    var digits := Text.IntToDecimal(status);
    assert forall k | 0 <= k < |msg| :: msg[k] != 'n' by {
      forall k | 0 <= k < |msg| ensures msg[k] != 'n' {
        var prefix := "API request failed with status ";
        if k >= |prefix| {
          assert msg[k] == digits[k - |prefix|];
        }
      }
    }
    Text.NotContainedWithoutLetter(msg, "not found");
  }

  /** As written, a timeout for a name containing "not found" is reported
      as 404, though the upstream service never answered. */
  lemma TimeoutReportedAsNotFound(db: Db, pokemonName: string, storageFails: bool)
    requires GetByName(db, Text.Lower(pokemonName)).DoesNotExist?
    requires Text.ContainsSub(Text.Normalize(pokemonName), "not found")
    ensures ApiGet(db, pokemonName, Timeout, storageFails).reply.status == 404
  {
    var name := Text.Normalize(pokemonName);
    var f := FetchPokemon(db, pokemonName, Timeout, storageFails);
    assert !f.success && f.error == Some(TimeoutMessage(name));
    Text.ContainedAfterPrefix("Request timeout for Pokemon: ", name, "not found");
    assert StatusFromMessage(TimeoutMessage(name)) == 404;
  }

  /** The name "not found" is already normalised and contains itself, so
      `TimeoutReportedAsNotFound` applies to it with an empty table. */
  lemma NotFoundNameTimesOutAs404()
    ensures ApiGet(Db([], 0), "not found", Timeout, false).reply.status == 404
  {
    NotFoundIsNormal();
    TimeoutReportedAsNotFound(Db([], 0), "not found", false);
  }

  /** "not found" is its own normal form and contains itself. */
  lemma NotFoundIsNormal()
    ensures Text.Normalize("not found") == "not found"
    ensures Text.ContainsSub("not found", "not found")
  {
    var n := "not found";
    Text.LowerOfLower(n);
    Text.StripOfStripped(n);
    assert Text.StartsWith(n[0..], n);
  }

  /** A stored Pikachu, to exhibit the cache miss for a padded name. */
  function PikachuTable(): (db: Db)
    ensures DbValid(db)
  {
    Db([Pokemon(0, 25, "pikachu", 4, 60, Some(112), Obj([]))], 1)
  }

  /** As written, " pikachu" names the stored record after normalisation,
      but the lookup uses the lower-cased name alone, misses, and fetches. */
  lemma PaddedNameRefetches(outcome: HttpOutcome, storageFails: bool)
    ensures Text.Normalize(" pikachu") == "pikachu"
    ensures GetByName(PikachuTable(), Text.Normalize(" pikachu")).Found?
    ensures ApiGet(PikachuTable(), " pikachu", outcome, storageFails).fetch.Some?
  {
    PaddedPikachu();
    assert PikachuTable().rows[0].name == "pikachu" != " pikachu";
  }

  /** " pikachu" is left alone by `lower()` and normalises to "pikachu". */
  lemma PaddedPikachu()
    ensures Text.Lower(" pikachu") == " pikachu"
    ensures Text.Normalize(" pikachu") == "pikachu"
  {
    var padded := " pikachu";
    Text.LowerOfLower(padded);
    assert padded == " " + "pikachu" + [];
    Text.StripUnique(padded, " ", "pikachu", []);
  }


  // ---------------------------------------------------------------------
  // The endpoint with both defects corrected

  /** The 404-or-500 rule as intended: 404 exactly when upstream said 404. */
  function StatusFromOutcome(outcome: HttpOutcome): (status: int)
    ensures status == 404 <==> (outcome.Response? && outcome.status == 404)
    ensures status == 404 || status == 500
  {
    if outcome.Response? && outcome.status == 404 then 404 else 500
  }

  /** `PokemonAPIView.get` with the lookup under the service's normalised
      name and the status taken from the upstream outcome. */
  function ApiGetFixed(db: Db, pokemonName: string, outcome: HttpOutcome, storageFails: bool): (r: ApiResult)
    ensures GetByName(db, Text.Normalize(pokemonName)).Found? ==>
      r == ApiResult(DataReply(GetByName(db, Text.Normalize(pokemonName)).row), None, db)
    ensures GetByName(db, Text.Normalize(pokemonName)).DoesNotExist? ==>
      r.fetch.Some? && |r.fetch.value.requests| == 1 && r.db == r.fetch.value.db
    ensures GetByName(db, Text.Normalize(pokemonName)).DoesNotExist? ==> (
      var f := FetchPokemon(db, pokemonName, outcome, storageFails);
      && r.fetch == Some(f)
      && (f.success ==> r.reply == DataReply(f.pokemon.value))
      && (!f.success ==> r.reply == JsonReply(StatusFromOutcome(outcome), ErrorBody(f.error.value))))
    // 404 exactly for a miss the upstream service answered with 404
    ensures (r.reply.JsonReply? && r.reply.status == 404) <==>
      (GetByName(db, Text.Normalize(pokemonName)).DoesNotExist? && outcome.Response? && outcome.status == 404)
    ensures r.reply.JsonReply? && r.reply.body.ErrorBody? ==> (
      && r.fetch.Some? && !r.fetch.value.success
      && r.fetch.value.error == Some(r.reply.body.error)
      && (r.reply.status == 404 || r.reply.status == 500))
    ensures DbValid(db) ==> DbValid(r.db)
  {
    match GetByName(db, Text.Normalize(pokemonName))
    case Found(p) => ApiResult(DataReply(p), None, db)
    case MultipleObjectsReturned => ApiResult(ServerError("MultipleObjectsReturned"), None, db)
    case DoesNotExist =>
      var status := StatusFromOutcome(outcome);
      AfterMiss(db, pokemonName, outcome, storageFails, _ => status)
  }

  /** Padding and case no longer matter: every spelling of a name that
      normalises alike gets the same answer. */
  lemma FixedIgnoresSpelling(db: Db, pokemonName: string, outcome: HttpOutcome, storageFails: bool)
    ensures ApiGetFixed(db, pokemonName, outcome, storageFails)
         == ApiGetFixed(db, Text.Normalize(pokemonName), outcome, storageFails)
  {
    Text.NormalizeIdempotent(pokemonName);
    FetchNormalizedName(db, pokemonName, outcome, storageFails);
  }

  /** Once a fetch has stored the record under the requested name, the
      next request for that name, in any spelling, is served from the
      table without a fetch. */
  lemma FixedServesStoredRecord(db: Db, pokemonName: string, outcome: HttpOutcome, storageFails: bool,
                                again: string, outcome2: HttpOutcome, storageFails2: bool)
    requires DbValid(db)
    requires Text.Normalize(again) == Text.Normalize(pokemonName)
    requires var r := ApiGetFixed(db, pokemonName, outcome, storageFails);
             r.fetch.Some? && r.fetch.value.success
             && r.fetch.value.pokemon.value.name == Text.Normalize(pokemonName)
    ensures var r := ApiGetFixed(db, pokemonName, outcome, storageFails);
            ApiGetFixed(r.db, again, outcome2, storageFails2).fetch.None?
  {
    var r := ApiGetFixed(db, pokemonName, outcome, storageFails);
    var p := r.fetch.value.pokemon.value;
    assert p in r.db.rows;
    assert DbValid(r.db);
    GetByNameUnique(r.db, Text.Normalize(again));
  }

  /** A timeout is a 500 whatever the name, unlike `ApiGet`. */
  lemma FixedTimeoutIs500(db: Db, pokemonName: string, storageFails: bool)
    requires GetByName(db, Text.Normalize(pokemonName)).DoesNotExist?
    ensures ApiGetFixed(db, pokemonName, Timeout, storageFails).reply
         == JsonReply(500, ErrorBody(TimeoutMessage(Text.Normalize(pokemonName))))
  {
  }

  // ---------------------------------------------------------------------
  // DownloadJSONView.get

  /** What the download view answers: the record's payload as an attachment
      (its JSON text is `json.dumps(raw_data, indent=2)`), Django's 404
      page, or its 500 page. */
  datatype Download =
    | Attachment(content: Json, disposition: string)
    | NotFoundPage
    | DownloadFailed(reason: string)

  function Disposition(name: string): string {
    "attachment; filename=\"" + name + "_data.json\""
  }

  /** Reads the Pokemon name back out of a `Content-Disposition` value. */
  function DispositionName(disposition: string): Option<string> {
    Text.Between(disposition, "attachment; filename=\"", "_data.json\"")
  }

  /** Django's check on a response header value: a value holding a line
      break is refused with `BadHeaderError`, whether or not it would
      otherwise be MIME-encoded. */
  predicate HeaderRefused(value: string) {
    '\n' in value || '\r' in value
  }

  /** The header around a name is refused exactly when the name alone
      would be: the text around it holds no line break. */
  lemma DispositionRefused(name: string)
    ensures HeaderRefused(Disposition(name)) <==> HeaderRefused(name)
  {
    var pre := "attachment; filename=\"";
    var post := "_data.json\"";
    assert Disposition(name) == pre + name + post;
    assert !HeaderRefused(pre) && !HeaderRefused(post);
  }

  /** `DownloadJSONView.get(request, pk)`. */
  function DownloadJson(db: Db, pk: nat): (r: Download)
    ensures r.NotFoundPage? <==> forall i | 0 <= i < |db.rows| :: db.rows[i].pk != pk
    // on a valid table the only failure is a name that breaks the header
    ensures DbValid(db) ==> (r.DownloadFailed? <==> exists p | p in db.rows && p.pk == pk :: HeaderRefused(p.name))
    ensures r.Attachment? ==> exists p | p in db.rows && p.pk == pk ::
      && r.content == p.rawData && DispositionName(r.disposition) == Some(p.name)
      && !HeaderRefused(p.name)
  {
    assert DbValid(db) ==> !GetByPk(db, pk).MultipleObjectsReturned? by {
      if DbValid(db) { GetByPkUnique(db, pk); }
    }
    match GetByPk(db, pk)
    case Found(p) =>
      assert DbValid(db) ==> forall q | q in db.rows && q.pk == pk :: q == p by {
        if DbValid(db) { StoredRowFoundByPk(db, p); PkDeterminesRow(db, p); }
      }
      DispositionRefused(p.name);
      if HeaderRefused(Disposition(p.name)) then DownloadFailed("BadHeaderError")
      else
        Text.BetweenJoin("attachment; filename=\"", p.name, "_data.json\"");
        assert Disposition(p.name) == "attachment; filename=\"" + p.name + "_data.json\"";
        Attachment(p.rawData, Disposition(p.name))
    case DoesNotExist => NotFoundPage
    case MultipleObjectsReturned => DownloadFailed("MultipleObjectsReturned")
  }

  /** In a valid table a primary key belongs to one row only. */
  lemma PkDeterminesRow(db: Db, p: Pokemon)
    requires DbValid(db) && p in db.rows
    ensures forall q | q in db.rows && q.pk == p.pk :: q == p
  {
    forall q | q in db.rows && q.pk == p.pk ensures q == p {
      var i :| 0 <= i < |db.rows| && db.rows[i] == p;
      var j :| 0 <= j < |db.rows| && db.rows[j] == q;
      assert i == j;
    }
  }

  // ---------------------------------------------------------------------
  // PokemonSearchView.form_valid

  /** Where the search form redirects: the search page or a detail page. */
  datatype Page = SearchPage | DetailPage(pk: nat)

  /** The one flash message the submission queues. */
  datatype Flash = SuccessFlash(text: string) | ErrorFlash(text: string)

  datatype SearchResult = SearchResult(redirect: Page, flash: Flash, fetch: FetchResult)

  /** The flash text after a successful fetch. */
  function FetchedText(name: string): (t: string)
    ensures Text.Between(t, "Successfully fetched data for ", "!") == Some(name)
  {
    Text.BetweenJoin("Successfully fetched data for ", name, "!");
    "Successfully fetched data for " + name + "!"
  }

  /** The flash text after a failed fetch. */
  function FailedText(error: string): (t: string)
    ensures Text.Between(t, "Error: ", "") == Some(error)
  {
    Text.BetweenJoin("Error: ", error, "");
    assert "Error: " + error + "" == "Error: " + error;
    "Error: " + error
  }

  /** The primary key of a row in a valid table finds that row. */
  lemma StoredRowFoundByPk(db: Db, p: Pokemon)
    requires DbValid(db) && p in db.rows
    ensures GetByPk(db, p.pk) == Found(p)
  {
    GetByPkUnique(db, p.pk);
  }

  /** `form_valid` for a submitted (already cleaned) name. */
  function SearchSubmit(db: Db, cleanedName: string, outcome: HttpOutcome, storageFails: bool): (r: SearchResult)
    ensures r.fetch == FetchPokemon(db, cleanedName, outcome, storageFails)
    ensures r.redirect.DetailPage? <==> r.fetch.success
    ensures r.flash.SuccessFlash? <==> r.fetch.success
    ensures r.fetch.success ==> (
      && r.redirect.pk == r.fetch.pokemon.value.pk
      && Text.Between(r.flash.text, "Successfully fetched data for ", "!") == Some(r.fetch.pokemon.value.name))
    ensures r.fetch.success && DbValid(db) ==> GetByPk(r.fetch.db, r.redirect.pk) == Found(r.fetch.pokemon.value)
    ensures !r.fetch.success ==> r.fetch.error.Some? && Text.Between(r.flash.text, "Error: ", "") == Some(r.fetch.error.value)
  {
    FetchStoresRecord(db, Text.Normalize(cleanedName), outcome, storageFails);
    var f := FetchPokemon(db, cleanedName, outcome, storageFails);
    if f.success then
      var p := f.pokemon.value;
      assert DbValid(db) ==> GetByPk(f.db, p.pk) == Found(p) by {
        if DbValid(db) { StoredRowFoundByPk(f.db, p); }
      }
      SearchResult(DetailPage(p.pk), SuccessFlash(FetchedText(p.name)), f)
    else
      SearchResult(SearchPage, ErrorFlash(FailedText(f.error.value)), f)
  }
}
