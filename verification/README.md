# Pokemon API app: a Dafny model of its decision logic

The application is a small Django app. It fetches Pokemon records from the public PokeAPI, stores them, and serves them back. This project models the parts of it that decide something:

- **The derived properties of a stored record** (`Pokemon.types`, `abilities`, `hidden_abilities`, `base_stats`) and the two `__str__` methods. These are pure functions over the stored JSON payload. Python's evaluation rules are followed for:
  - dictionary, list and string subscripts, with their `KeyError` and `TypeError`;
  - `in`;
  - iteration;
  - comprehension order, where the first exception wins;
  - dictionary-comprehension overwriting.

  Three simplifications apply, each listed under "Left out": JSON numbers are integers only, `lower()` lowers ASCII letters only, and `True == 1` key equality is not modelled.
- **`PokemonAPIService.fetch_pokemon`**. One GET is issued and its outcome is classified into the `(pokemon, success, error)` triple, with the exact error messages. The model also covers the request-log rows the call writes, the upsert of the record, and the name of the JSON file it saves.
- **The views with decision logic**:
  - the JSON endpoint `PokemonAPIView.get`: the stored record first, then the service, then 404 or 500;
  - the attachment of `DownloadJSONView.get`;
  - the redirect of `PokemonSearchView.form_valid`.

Everything outside the program is an input:

- The network is an `HttpOutcome`: a response with a status and a parsed or unparsable body, a timeout, a connection error, or any other exception.
- The `Pokemon` table is a `Db`: a sequence of rows plus the next primary key. Primary key, `pokemon_id` and `name` are each unique.
- The file storage is a flag that says whether the write raises.

Modules, one per file:

- `Wrappers` holds `Option` and `Result`.
- `Text` models Python's `str` operations: `lower`, `strip` and `str(int)` with its parser, plus substring and split helpers.
- `Seqs` provides selection by flags and de-duplication.
- `Payload` models the JSON value and Python's operations on it.
- `OrderedDict` models insertion-ordered `dict` built from pairs.
- `Models` covers `models.py`.
- `Database` covers the ORM calls the app makes.
- `Services` covers `services.py`.
- `Views` covers `views.py`.

`fetch_pokemon` issues exactly one GET and returns (`Advanced_shell/services.py:35`). The model proves that exactly one request is made.

## Model

| member | source | states |
|---|---|---|
| `Text.Lower` | Advanced_shell/services.py:30 | `lower()`: every ASCII upper-case letter becomes its lower-case letter (code point + 32), every other character, whitespace included, is unchanged, and no upper-case letter remains |
| `Text.Strip` | Advanced_shell/services.py:30 | `strip()`: the result has no whitespace at either end, and the input is whitespace + result + whitespace |
| `Text.StripUnique` | Advanced_shell/services.py:30 | any split of a string into whitespace, a core without whitespace at its ends, and whitespace has `strip()` as that core |
| `Text.Normalize` | Advanced_shell/services.py:30 | the service's name normalisation: the lower-cased name is whitespace + result + whitespace, and the result has no upper-case letter and no whitespace at either end |
| `Text.NormalizeIdempotent` | Advanced_shell/services.py:30 | normalising an already normalised name changes nothing |
| `Text.DecimalRoundTrip` | Advanced_shell/services.py:42 | `str(n)` of any integer parses back to `n` |
| `Text.DecimalCanonical` | Advanced_shell/services.py:42 | every string the parser accepts is exactly `str` of the number it yields |
| `Seqs.SelectPartition` | Advanced_shell/models.py:43-58 | the two complementary selections of a list together hold each element exactly as often as the list |
| `Seqs.Dedup` | Advanced_shell/models.py:65-68 | the first-occurrence de-duplication is repetition-free and holds exactly the elements of its input |
| `Payload.Lookup` | Advanced_shell/models.py:36 | the value of a key in a parsed object is the one of its last occurrence, and it exists iff the key occurs |
| `Payload.Subscript` | Advanced_shell/models.py:36 | `v[key]` succeeds exactly on an object holding the key, raises `KeyError(key)` on an object without it, and raises `TypeError` on any other value |
| `Payload.InMatchesIterate` | Advanced_shell/models.py:35-36 | `key in v` raises exactly where `for x in v` raises, and on a list, an object or (for a one-character key) a string it is true exactly when iteration visits `key` |
| `Payload.InGuardsSubscript` | Advanced_shell/models.py:35-36 | on an object, the guard `key in raw` is true exactly when the subscript `raw[key]` it protects succeeds, and false exactly when that subscript raises `KeyError(key)` |
| `Payload.Iterate` | Advanced_shell/models.py:36 | `for x in v` visits a list's items in order, a string's characters as one-character strings, or an object's keys, each once and exactly those present; it raises exactly on `None`, booleans and numbers |
| `Payload.MapAll` | Advanced_shell/models.py:36 | a list comprehension succeeds iff every item does, keeps order and length, and otherwise raises the error of the first failing item |
| `Payload.FilterMap` | Advanced_shell/models.py:43-47 | a filtered comprehension succeeds iff every condition succeeds and every kept item's expression does, and keeps at most as many items |
| `Payload.FilterMapSelect` | Advanced_shell/models.py:43-47 | when no condition raises, a filtered comprehension has the outcome of the plain comprehension over the kept items in order, error included: the expression is evaluated for the kept items only |
| `OrderedDict.Get` | Advanced_shell/models.py:65-68 | `d.get(k)` finds a value iff `k` is one of the keys |
| `OrderedDict.Put` | Advanced_shell/models.py:65-68 | `d[k] = v` keeps an existing key's position and appends a new key, and afterwards `k` maps to `v` |
| `OrderedDict.PutOther` | Advanced_shell/models.py:65-68 | `d[k] = v` leaves every other key's value unchanged |
| `OrderedDict.FromPairsLastWins` | Advanced_shell/models.py:65-68 | in a dictionary built from pairs, each key holds the value of its last pair |
| `OrderedDict.FromPairsKeys` | Advanced_shell/models.py:65-68 | the keys of a dictionary built from pairs are the distinct pair keys in first-occurrence order |
| `Models.Section` | Advanced_shell/models.py:35 | the guard `raw and key in raw` falls back on a falsy payload, and on an object it yields the key's value exactly when the key is present |
| `Models.Types` | Advanced_shell/models.py:32-37 | `types` is `[]` on a falsy payload or a missing key; for a list of entries it succeeds iff every entry has `type.name`, and then holds those names in source order with the same length |
| `Models.Abilities` | Advanced_shell/models.py:39-48 | `abilities` is `[]` on a falsy payload or a missing key |
| `Models.HiddenAbilities` | Advanced_shell/models.py:50-59 | `hidden_abilities` is `[]` on a falsy payload or a missing key |
| `Models.FiltersFollowFlags` | Advanced_shell/models.py:41-59 | once every entry's `is_hidden` can be read, `abilities` raises or returns exactly what reading `ability.name` of the entries whose `is_hidden` is false does, in source order, and `hidden_abilities` likewise for the entries whose `is_hidden` is true; a name is read only for an entry the filter keeps |
| `Models.FiltersSelect` | Advanced_shell/models.py:41-59 | when both filters succeed, `abilities` is exactly the names whose `is_hidden` is false, and `hidden_abilities` exactly those whose `is_hidden` is true, each in source order |
| `Models.AbilitiesPartition` | Advanced_shell/models.py:43-58 | the two lists' lengths add up to the number of ability entries, and together they hold each name as often as the entries do, so no entry is lost or in both |
| `Models.StatPair` | Advanced_shell/models.py:66-67 | one stat pair is produced exactly when `stat.name` and `base_stat` can be read and the key is hashable, and is those two values; a failing key read raises before the value is read |
| `Models.BaseStats` | Advanced_shell/models.py:61-69 | `base_stats` is `{}` on a falsy payload or a missing key; for a list of entries it succeeds iff every entry yields a stat pair; it never holds a key twice |
| `Models.BaseStatsLastWins` | Advanced_shell/models.py:64-68 | `base_stats` has one key per distinct stat name, in first-occurrence order, each holding the `base_stat` of the last entry with that name |
| `Models.PokemonLabel` | Advanced_shell/models.py:21-22 | `Pokemon.__str__` begins with the name and ends with `)` |
| `Models.PokemonLabelRoundTrip` | Advanced_shell/models.py:21-22 | the name and the Pokedex number can be read back from `name (#id)`, whatever the name holds |
| `Models.RequestLabel` | Advanced_shell/models.py:84-86 | `APIRequest.__str__` is `name - `, then a status that starts with `SUCCESS` iff the request succeeded and with `ERROR` iff it failed, and ends with `timestamp)` |
| `Database.GetByName` | Advanced_shell/views.py:78 | `objects.get(name=...)` raises `DoesNotExist` iff no row has the name, and a row it returns has that name |
| `Database.GetByPk` | Advanced_shell/views.py:128 | `get_object_or_404(pk=...)` finds nothing iff no row has the key, and a row it returns has that key |
| `Database.GetByNameUnique` | Advanced_shell/models.py:10 | under the unique name column a name lookup never returns several rows |
| `Database.GetByPkUnique` | Advanced_shell/views.py:128 | a primary-key lookup never returns several rows |
| `Database.Upsert` | Advanced_shell/services.py:53-62 | `update_or_create(pokemon_id=...)`:<br>• on a valid table it succeeds iff no row with another Pokedex number holds the name, and otherwise fails with the unique-name violation<br>• the stored row carries exactly the given fields<br>• the rows with other numbers are kept and no row is invented<br>• the table stays valid, and only the returned row holds the number<br>• an update keeps the existing row's primary key, and a new row takes the next one |
| `Services.StatusTextsRoundTrip` | Advanced_shell/services.py:42 | the status code can be read back from `HTTP <code>` (and, at line 75, from `API request failed with status <code>`) |
| `Services.LogError` | Advanced_shell/services.py:110-116 | `_log_error` writes a failed record with the message, no status code and no response body |
| `Services.LogResponse` | Advanced_shell/services.py:38-44 | the logged response record:<br>• succeeded iff the status is 200, and records the status<br>• has an empty error text iff the status is 200; otherwise the text is `HTTP <code>` with the code readable back<br>• keeps the parsed body on 200, and no body otherwise |
| `Services.SaveFileNameRoundTrip` | Advanced_shell/services.py:100 | the name and Pokedex number can be read back from `pokemon_data/<name>_<id>.json`, even for names holding `_` |
| `Services.SaveJsonToFile` | Advanced_shell/services.py:97-108 | a file is saved only when `data['id']` can be read and the write succeeds; for a numeric id, its path yields the name and the id back |
| `Services.StoreFields` | Advanced_shell/services.py:53-59 | `data['id']`, `['name']`, `['height']`, `['weight']` are read in that order and the first missing one fails with its `KeyError` text; when all four are present the outcome is the column conversion's, with `base_experience` `None` when absent |
| `Services.Columns` | Advanced_shell/services.py:54-59 | the columns are stored exactly when `id`, `height` and `weight` are integers within SQLite's signed 64-bit range, `name` is a string, and `base_experience` is `None` or such an integer; an `id` out of range fails with the driver's overflow error; stored columns hold those values |
| `Services.Store` | Advanced_shell/services.py:53-62 | a payload whose fields cannot be read stores nothing and reports the read's error. With readable fields, on a valid table, the record is stored exactly when no row with another Pokedex number holds the name; otherwise the error is the unique-name violation's text. A stored row is in the new table and carries exactly the fields read, with the payload as `raw_data`; the rows with other numbers are kept and no other row is invented; a valid table stays valid |
| `Services.FetchPokemon` | Advanced_shell/services.py:30-31 | the name is lower-cased and stripped before anything else: exactly one GET is made, to `BASE_URL + normalised name + "/"`, with timeout 30 and the app's User-Agent, and the whole fetch is the fetch of the normalised name |
| `Services.FetchNormalized` | Advanced_shell/services.py:31-95 | one GET to the name's URL, no retry. Outcomes:<br>• success implies a parsed 200 response, a record and no error<br>• a parsed 200 succeeds exactly when its payload can be stored, returning the table and row the store produced, and otherwise fails with `Unexpected error: ` and the store's error<br>• an unreadable 200 body fails with `Unexpected error: ` and the decoding error<br>• every failure has no record and an error, and leaves the table unchanged<br>• the exact messages for 404, other statuses, timeouts, connection errors and other exceptions<br>• after a parsed 200 response the saved file is what `_save_json_to_file` makes of the payload; after any other outcome no file is saved |
| `Services.FetchStoresRecord` | Advanced_shell/services.py:53-67 | a successful fetch returns a row that is in the table and keeps the payload as `raw_data`; a valid table stays valid whatever the outcome |
| `Services.FetchLogRows` | Advanced_shell/services.py:38-95 | the request log gains one or two rows:<br>• the first describes the response whenever a response was received and its body could be read<br>• a non-200 answer and a success write exactly one row<br>• exactly two rows are written iff a parsed 200 response is followed by a failure<br>• a timeout, connection error or other exception ends with the `_log_error` row carrying the returned message |
| `Services.Rejected` | Advanced_shell/services.py:69-77 | a non-200 answer logs one response row and returns no record, the 404 message for 404 and the status message otherwise, with the table untouched |
| `Services.Fetched` | Advanced_shell/services.py:46-67 | after a parsed 200 response: success exactly when the record is stored, returning the table and row the store produced and one log row, which keeps the payload; otherwise the message is `Unexpected error: ` with the store's error, logged as the second row, and the table is unchanged; either way the saved file is what `_save_json_to_file` makes of the payload |
| `Services.SaveFailureIsSwallowed` | Advanced_shell/services.py:107-108 | a failing file write changes nothing but whether a file was saved: same triple, log and table |
| `Services.FetchNormalizedName` | Advanced_shell/services.py:30-31 | fetching any spelling of a name equals fetching its normalised form |
| `Services.NotFoundMessageSaysNotFound` | Advanced_shell/services.py:70 | the 404 message contains the words `not found`, whatever the name |
| `Services.FailureMessageClassified` | Advanced_shell/services.py:69-95 | 404, other statuses, timeouts, connection errors and other exceptions each produce a message of their own form, from which the failure class is recovered |
| `Views.Tenths` | Advanced_shell/models.py:24-30 | the metre and kilogram figures are ten times smaller than the stored decimetres and hectograms |
| `Views.Describe` | Advanced_shell/views.py:81-93 | the reply's `data` holds the record's id, name, height, weight, converted height and weight, base experience, types, abilities, hidden abilities and base stats; it fails iff one of the derived properties raises, with the first property's error |
| `Views.StatusFromMessage` | Advanced_shell/views.py:121 | a failure reply is 404 iff the message contains `not found`, and 500 otherwise |
| `Views.ApiGet` | Advanced_shell/views.py:74-121 | a record found under the lower-cased name is served as is, with no fetch and the table unchanged; a miss makes exactly one GET through the service and answers with the fetched record, or with the service's error; a failure reply carries the service's message with status 404 iff it contains `not found`, else 500; data replies are 200 |
| `Views.SuccessRepliesDescribeRecord` | Advanced_shell/views.py:79-116 | both success branches reply with the eleven-key data of a record in the table |
| `Views.UpstreamNotFoundIs404` | Advanced_shell/views.py:117-121 | on a miss, an upstream 404 is answered 404 with `Pokemon '<name>' not found` |
| `Views.UpstreamStatusIs500` | Advanced_shell/views.py:121 | on a miss, any other failing upstream status is answered 500, because that message never contains `not found` (services.py line 75) |
| `Views.TimeoutReportedAsNotFound` | Advanced_shell/views.py:121 | as written, a timeout for a name whose normalised form contains `not found` is answered 404 |
| `Views.NotFoundNameTimesOutAs404` | Advanced_shell/views.py:121 | as written, a timeout for the name `not found` on an empty table is answered 404 |
| `Views.PaddedNameRefetches` | Advanced_shell/views.py:78 | as written, ` pikachu` normalises to a stored name, yet the lookup misses and a fetch is made |
| `Views.StatusFromOutcome` | Advanced_shell/views.py:117-121 | corrected rule: 404 exactly when the upstream answer was 404, otherwise 500 |
| `Views.ApiGetFixed` | Advanced_shell/views.py:74-121 | corrected endpoint: the lookup uses the service's normalised name; a miss makes one fetch and answers with the fetched record or the service's error; a failure is 404 exactly for a miss answered 404 upstream, else 500 |
| `Views.FixedIgnoresSpelling` | Advanced_shell/views.py:78 | corrected endpoint: every spelling of a name gets the same answer as its normalised form |
| `Views.FixedServesStoredRecord` | Advanced_shell/views.py:76-98 | corrected endpoint: once a fetch stored the record under the requested name, any later request for that name in any spelling makes no fetch |
| `Views.FixedTimeoutIs500` | Advanced_shell/views.py:121 | corrected endpoint: a timeout is answered 500 with the timeout message, whatever the name |
| `Views.DownloadJson` | Advanced_shell/views.py:127-135 | the download is a 404 iff no row has the key. On a valid table it fails iff the row's name holds a line break (`\n` or `\r`), which Django refuses in any header value. Otherwise the attachment holds that row's payload, and the name can be read back from `attachment; filename="<name>_data.json"` |
| `Views.DispositionRefused` | Advanced_shell/views.py:134 | Django refuses the `Content-Disposition` value exactly when the name in it holds a line break, since the text around the name holds none |
| `Views.SearchSubmit` | Advanced_shell/views.py:47-63 | the search redirects to the detail page iff the fetch succeeded, to the stored row's key, which finds that row, with a flash naming the Pokemon; otherwise it stays on the search page with `Error: <message>` |

## Left out

- Network I/O, the `requests` session and the JSON decoding of the body are inputs (`HttpOutcome`, `Body`). A `ConnectTimeout` counts as a timeout, because that handler comes first.
- `logging` calls have no effect on the returned values and are not modelled.
- Timestamps (`created_at`, `updated_at`, `request_timestamp`) and the tables' `ordering` are left out. `APIRequest.__str__` takes its rendered timestamp as a parameter.
- The `APIRequest` rows are returned as the sequence one call writes; the log table itself is not kept.
- Failures of the log writes themselves are not modelled. These are `APIRequest.objects.create` raising, including inside an `except` branch.
- `Views.Tenths`: `height_in_meters` and `weight_in_kg` multiply by the float `0.1`, whose rounding is not modelled. The model divides exactly by ten.
- `Services.SaveJsonToFile`: the storage backend may rename a file whose name is taken; the model returns the requested path. `json.dumps` formatting is not modelled. A list or object `id` is not rendered by `str()` here, and the model saves no file in that case.
- `Services.StoreFields` and `Services.Columns`: Django's coercion of field values is not modelled; strings of digits and floats are accepted for integer columns in Django. The model accepts integers, and `None` for `base_experience`. Other values are refused with stand-in error texts.
- `Database.Upsert`: only the unique-name violation and the 64-bit integer overflow carry the database's own messages. Column lengths (`max_length=100`) are not enforced, as with SQLite.
- `Models.BaseStats`: JSON numbers are integers here. Python's `True == 1` key equality, which would merge a `true` key with a `1` key, is not modelled.
- JSON numbers are integers; floats (a `0.0` for `is_hidden`, say) are not modelled.
- `Text.Lower`: only ASCII letters are lowered. Python's `str.lower()` also lowers other scripts.
- `Views.ApiGet`: the `MultipleObjectsReturned` exception becomes a generic server error. It cannot happen on a valid table.
- Form validation is left out: `required`, `max_length=100` and the `strip` of the `CharField`. The search view receives the cleaned name.
- The `messages` framework is reduced to the one flash text, and `reverse_lazy` to the target page.
- Framework configuration with no decision logic is left out:
  - the list and detail views;
  - `get_context_data`, which shows the ten latest requests;
  - templates, `admin.py`, `urls.py` and `apps.py`.
- The Django version is not pinned. The refusal of any header value holding `\n` or `\r`, checked before MIME-encoding, and the 64-bit integer range follow current Django with its SQLite backend.
- The `fetch_pokemon` management command only calls the service once per name and prints the result.

## Findings

| source | as written | input that shows it | evidently intended | confidence | as-written member | corrected member |
|---|---|---|---|---|---|---|
| Advanced_shell/views.py:78 | the stored record is looked up under `pokemon_name.lower()`, while the service requests `pokemon_name.lower().strip()` and PokeAPI returns the record under that name, which is the name stored | `GET api/pokemon/%20pikachu/` with `pikachu` stored: the lookup misses and the record is fetched again | look up under the same normalised name the service uses | medium, not executed | `Views.PaddedNameRefetches` | `Views.FixedServesStoredRecord` |
| Advanced_shell/views.py:121 | 404 vs 500 is decided by `'not found' in error`, and the message embeds the requested name | `GET api/pokemon/not%20found/` when the upstream call times out: the reply is 404 | 404 only when the upstream service answered 404 | medium, not executed | `Views.TimeoutReportedAsNotFound` | `Views.ApiGetFixed` |
