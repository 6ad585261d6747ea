/** The two stored records, `Pokemon` and `APIRequest`, and the derived
    properties `Pokemon` computes from its stored API payload. */
module Models {
  import opened Wrappers
  import opened Payload
  import Text
  import Seqs
  import OrderedDict

  /** A stored Pokemon row. `pk` is the database key; `rawData` the complete
      API response it was built from. Timestamps are not modelled. */
  datatype Pokemon = Pokemon(
    pk: nat,
    pokemonId: int,
    name: string,
    height: int,
    weight: int,
    baseExperience: Option<int>,
    rawData: Json)

  /** A stored request-log row; `httpStatusCode` and `responseData` are
      nullable columns. */
  datatype ApiRequest = ApiRequest(
    pokemonName: string,
    success: bool,
    errorMessage: string,
    httpStatusCode: Option<int>,
    responseData: Option<Json>)

  // ---------------------------------------------------------------------
  // Field extraction from the stored payload

  /** The guard `raw and key in raw`, then `raw[key]`; `None` when the guard
      fails and the property falls back to an empty collection. */
  function Section(raw: Json, key: string): (r: Outcome<Option<Json>>)
    ensures !Truthy(raw) ==> r == Ok(None)
    ensures raw.Obj? ==> r == Ok(Lookup(raw.fields, key))
    ensures raw.Arr? && Truthy(raw) ==> (r.Ok? <==> Str(key) !in raw.items)
  {
    if !Truthy(raw) then Ok(None)
    else
      match In(key, raw)
      case Raise(e) => Raise(e)
      case Ok(present) =>
        if !present then Ok(None)
        else
          match Subscript(raw, key)
          case Raise(e) => Raise(e)
          case Ok(x) => Ok(Some(x))
  }

  /** The items iterated by the comprehension over `raw[key]`. */
  function Entries(raw: Json, key: string): (r: Outcome<seq<Json>>)
    ensures Section(raw, key) == Ok(None) ==> r == Ok([])
    ensures Section(raw, key).Ok? && Section(raw, key).value.Some?
      ==> r == Iterate(Section(raw, key).value.value)
  {
    match Section(raw, key)
    case Raise(e) => Raise(e)
    case Ok(None) => Ok([])
    case Ok(Some(x)) => Iterate(x)
  }

  /** `v[k1][k2]`. */
  function Path(v: Json, k1: string, k2: string): Outcome<Json> {
    match Subscript(v, k1)
    case Raise(e) => Raise(e)
    case Ok(inner) => Subscript(inner, k2)
  }

  function TypeEntryName(entry: Json): Outcome<Json> {
    Path(entry, "type", "name")
  }

  /** `Pokemon.types`: the `type.name` of every entry, in order. */
  function Types(raw: Json): (r: Outcome<seq<Json>>)
    ensures !Truthy(raw) ==> r == Ok([])
    ensures raw.Obj? && !HasKey(raw.fields, "types") ==> r == Ok([])
    ensures raw.Obj? && HasKey(raw.fields, "types") && Lookup(raw.fields, "types").value.Arr? ==>
      var es := Lookup(raw.fields, "types").value.items;
      && (r.Ok? <==> forall i | 0 <= i < |es| :: TypeEntryName(es[i]).Ok?)
      && (r.Ok? ==> |r.value| == |es| && forall i | 0 <= i < |es| :: TypeEntryName(es[i]) == Ok(r.value[i]))
  {
    assert raw.Obj? && HasKey(raw.fields, "types") ==> Truthy(raw);
    match Entries(raw, "types")
    case Raise(e) => Raise(e)
    case Ok(es) =>
      var names := MapAll(es, TypeEntryName);
      assert (forall i | 0 <= i < |es| :: TypeEntryName(es[i]).Ok?) ==> names.Ok?;
      names
  }

  function AbilityName(entry: Json): Outcome<Json> {
    Path(entry, "ability", "name")
  }

  /** The truth value of `entry['is_hidden']`. */
  function IsHidden(entry: Json): (r: Outcome<bool>)
    ensures r.Ok? <==> Subscript(entry, "is_hidden").Ok?
  {
    match Subscript(entry, "is_hidden")
    case Raise(e) => Raise(e)
    case Ok(v) => Ok(Truthy(v))
  }

  /** `not entry['is_hidden']`. */
  function IsShown(entry: Json): (r: Outcome<bool>)
    ensures r.Ok? <==> IsHidden(entry).Ok?
    ensures r.Ok? ==> r.value == !IsHidden(entry).value
  {
    match IsHidden(entry)
    case Raise(e) => Raise(e)
    case Ok(h) => Ok(!h)
  }

  /** `Pokemon.abilities`: names of the entries that are not hidden. */
  function Abilities(raw: Json): (r: Outcome<seq<Json>>)
    ensures !Truthy(raw) ==> r == Ok([])
    ensures raw.Obj? && !HasKey(raw.fields, "abilities") ==> r == Ok([])
  {
    match Entries(raw, "abilities")
    case Raise(e) => Raise(e)
    case Ok(es) => FilterMap(es, IsShown, AbilityName)
  }

  /** `Pokemon.hidden_abilities`: names of the hidden entries. */
  function HiddenAbilities(raw: Json): (r: Outcome<seq<Json>>)
    ensures !Truthy(raw) ==> r == Ok([])
    ensures raw.Obj? && !HasKey(raw.fields, "abilities") ==> r == Ok([])
  {
    match Entries(raw, "abilities")
    case Raise(e) => Raise(e)
    case Ok(es) => FilterMap(es, IsHidden, AbilityName)
  }

  /** The two filters over one entry list select complementary positions
      of the list of all names, each in source order. */
  lemma {:induction false} FiltersSelect(es: seq<Json>)
    requires FilterMap(es, IsShown, AbilityName).Ok?
    requires FilterMap(es, IsHidden, AbilityName).Ok?
    ensures MapAll(es, AbilityName).Ok? && MapAll(es, IsHidden).Ok?
    ensures var names := MapAll(es, AbilityName).value;
            var flags := MapAll(es, IsHidden).value;
            && FilterMap(es, IsShown, AbilityName).value == Seqs.Select(names, flags, false)
            && FilterMap(es, IsHidden, AbilityName).value == Seqs.Select(names, flags, true)
    decreases |es|
  {
    if |es| > 0 {
      var tail := es[1..];
      assert forall i | 0 <= i < |tail| :: tail[i] == es[i + 1];
      FiltersSelect(tail);
      var names := MapAll(es, AbilityName).value;
      var flags := MapAll(es, IsHidden).value;
      assert names[1..] == MapAll(tail, AbilityName).value;
      assert flags[1..] == MapAll(tail, IsHidden).value;
    }
  }

  /** Once every `is_hidden` read succeeds, each filter raises or returns
      exactly what reading the names of its selected entries, in list
      order, does: a name is read only for an entry the filter keeps. */
  lemma FiltersFollowFlags(es: seq<Json>)
    requires MapAll(es, IsHidden).Ok?
    ensures var flags := MapAll(es, IsHidden).value;
            && FilterMap(es, IsShown, AbilityName) == MapAll(Seqs.Select(es, flags, false), AbilityName)
            && FilterMap(es, IsHidden, AbilityName) == MapAll(Seqs.Select(es, flags, true), AbilityName)
  {
    var flags := MapAll(es, IsHidden).value;
    FilterMapSelect(es, IsShown, AbilityName, flags, false);
    FilterMapSelect(es, IsHidden, AbilityName, flags, true);
  }

  /** Every ability entry lands in exactly one of `abilities` and
      `hidden_abilities`: the two lists together hold each name as often
      as the entry list does. */
  lemma AbilitiesPartition(raw: Json)
    requires Abilities(raw).Ok? && HiddenAbilities(raw).Ok?
    ensures Entries(raw, "abilities").Ok?
    ensures var es := Entries(raw, "abilities").value;
            && MapAll(es, AbilityName).Ok?
            && |Abilities(raw).value| + |HiddenAbilities(raw).value| == |es|
            && multiset(Abilities(raw).value) + multiset(HiddenAbilities(raw).value)
               == multiset(MapAll(es, AbilityName).value)
  {
    var es := Entries(raw, "abilities").value;
    FiltersSelect(es);
    Seqs.SelectPartition(MapAll(es, AbilityName).value, MapAll(es, IsHidden).value);
  }

  /** One `stat['stat']['name']: stat['base_stat']` pair of the
      comprehension; the key is evaluated first and must be hashable. */
  function StatPair(entry: Json): (r: Outcome<(Json, Json)>)
    ensures r.Ok? <==> (Path(entry, "stat", "name").Ok? && Subscript(entry, "base_stat").Ok?
                        && Hashable(Path(entry, "stat", "name").value))
    ensures r.Ok? ==> (Path(entry, "stat", "name") == Ok(r.value.0)
                       && Subscript(entry, "base_stat") == Ok(r.value.1))
    // the key is read first, then the value; hashing comes last
    ensures Path(entry, "stat", "name").Raise? ==> r == Raise(Path(entry, "stat", "name").error)
    ensures Path(entry, "stat", "name").Ok? && Subscript(entry, "base_stat").Raise? ==>
      r == Raise(Subscript(entry, "base_stat").error)
  {
    match Path(entry, "stat", "name")
    case Raise(e) => Raise(e)
    case Ok(key) =>
      match Subscript(entry, "base_stat")
      case Raise(e) => Raise(e)
      case Ok(value) =>
        if Hashable(key) then Ok((key, value))
        else Raise(TypeError("unhashable type: '" + Payload.TypeName(key) + "'"))
  }

  /** `Pokemon.base_stats` as an insertion-ordered dictionary. */
  function BaseStats(raw: Json): (r: Outcome<seq<(Json, Json)>>)
    ensures !Truthy(raw) ==> r == Ok([])
    ensures raw.Obj? && !HasKey(raw.fields, "stats") ==> r == Ok([])
    ensures raw.Obj? && HasKey(raw.fields, "stats") && Lookup(raw.fields, "stats").value.Arr? ==>
      var es := Lookup(raw.fields, "stats").value.items;
      r.Ok? <==> forall i | 0 <= i < |es| :: StatPair(es[i]).Ok?
    ensures r.Ok? ==> OrderedDict.DistinctKeys(r.value)
  {
    assert raw.Obj? && HasKey(raw.fields, "stats") ==> Truthy(raw);
    match Entries(raw, "stats")
    case Raise(e) => Raise(e)
    case Ok(es) =>
      match MapAll(es, StatPair)
      case Raise(e) => Raise(e)
      case Ok(pairs) =>
        OrderedDict.FromPairsKeys(pairs);
        Ok(OrderedDict.FromPairs(pairs))
  }

  /** `base_stats` has one key per distinct stat name, in first-occurrence
      order, and each key holds the `base_stat` of the LAST entry with
      that name. */
  lemma BaseStatsLastWins(raw: Json, name: Json)
    requires BaseStats(raw).Ok?
    ensures Entries(raw, "stats").Ok? && MapAll(Entries(raw, "stats").value, StatPair).Ok?
    ensures var pairs := MapAll(Entries(raw, "stats").value, StatPair).value;
            && OrderedDict.Keys(BaseStats(raw).value) == Seqs.Dedup(OrderedDict.Keys(pairs))
            && OrderedDict.Get(BaseStats(raw).value, name) == OrderedDict.LastValue(pairs, name)
  {
    var pairs := MapAll(Entries(raw, "stats").value, StatPair).value;
    OrderedDict.FromPairsKeys(pairs);
    OrderedDict.FromPairsLastWins(pairs, name);
  }

  // ---------------------------------------------------------------------
  // Display strings

  /** `Pokemon.__str__`: `name (#id)`. */
  function PokemonLabel(p: Pokemon): (r: string)
    ensures Text.StartsWith(r, p.name) && Text.EndsWith(r, ")")
  {
    p.name + " (#" + Text.IntToDecimal(p.pokemonId) + ")"
  }

  /** Reads a label back into the name and the Pokedex number. The number
      is located after the LAST `#`, since a name may itself hold one. */
  function ParsePokemonLabel(shown: string): Option<(string, int)> {
    match Text.Between(shown, "", ")")
    case None => None
    case Some(body) =>
      match Text.SplitLast(body, '#')
      case None => None
      case Some((left, digits)) =>
        match Text.Between(left, "", " (")
        case None => None
        case Some(name) =>
          match Text.ParseInt(digits)
          case None => None
          case Some(id) => Some((name, id))
  }

  /** The label determines the name and the number it was made from. */
  lemma PokemonLabelRoundTrip(p: Pokemon)
    ensures ParsePokemonLabel(PokemonLabel(p)) == Some((p.name, p.pokemonId))
  {
    var digits := Text.IntToDecimal(p.pokemonId);
    var left := p.name + " (";
    assert PokemonLabel(p) == p.name + " (#" + digits + ")";
    DecimalHasNoHash(p.pokemonId);
    LabelParts(p.name, digits);
    Text.DecimalRoundTrip(p.pokemonId);
    ParseLabelSteps(PokemonLabel(p), left + "#" + digits, left, digits, p.name, p.pokemonId);
  }

  /** `ParsePokemonLabel` returns the name and number its three cuts and
      the number parse yield. */
  lemma ParseLabelSteps(shown: string, body: string, left: string, digits: string, name: string, id: int)
    requires Text.Between(shown, "", ")") == Some(body)
    requires Text.SplitLast(body, '#') == Some((left, digits))
    requires Text.Between(left, "", " (") == Some(name)
    requires Text.ParseInt(digits) == Some(id)
    ensures ParsePokemonLabel(shown) == Some((name, id))
  {
  }

  /** `str(n)` holds digits and possibly a minus sign, never a `#`. */
  lemma DecimalHasNoHash(n: int)
    ensures forall k | 0 <= k < |Text.IntToDecimal(n)| :: Text.IntToDecimal(n)[k] != '#'
  {
  }

  /** The three cuts `ParsePokemonLabel` makes recover the name and digits. */
  lemma LabelParts(name: string, digits: string)
    requires forall k | 0 <= k < |digits| :: digits[k] != '#'
    ensures var left := name + " (";
            var body := left + "#" + digits;
            && Text.Between(name + " (#" + digits + ")", "", ")") == Some(body)
            && Text.SplitLast(body, '#') == Some((left, digits))
            && Text.Between(left, "", " (") == Some(name)
  {
    LabelBodyCut(name, digits);
    LabelHashCut(name + " (", digits);
    LabelNameCut(name);
  }

  /** Cutting the closing `)` leaves `name (#digits`. */
  lemma LabelBodyCut(name: string, digits: string)
    ensures Text.Between(name + " (#" + digits + ")", "", ")") == Some(name + " (" + "#" + digits)
  {
    var body := name + " (#" + digits;
    Text.BetweenJoin("", body, ")");
    assert "" + body + ")" == body + ")";
    LabelOpening(name, digits);
  }

  /** `" (#"` is `" ("` followed by `"#"`. */
  lemma LabelOpening(name: string, digits: string)
    ensures name + " (" + "#" + digits == name + " (#" + digits
  {
    assert " (" + "#" == " (#";
    assert name + " (" + "#" + digits == name + (" (" + "#") + digits;
  }

  /** Splitting at the last `#` separates the digits, which hold none. */
  lemma LabelHashCut(left: string, digits: string)
    requires forall k | 0 <= k < |digits| :: digits[k] != '#'
    ensures Text.SplitLast(left + "#" + digits, '#') == Some((left, digits))
  {
    Text.SplitLastJoin(left, '#', digits);
    assert left + ['#'] + digits == left + "#" + digits;
  }

  /** Cutting the ` (` recovers the name. */
  lemma LabelNameCut(name: string)
    ensures Text.Between(name + " (", "", " (") == Some(name)
  {
    Text.BetweenJoin("", name, " (");
    assert "" + name + " (" == name + " (";
  }

  /** `APIRequest.__str__`: `name - SUCCESS (timestamp)` or
      `name - ERROR (timestamp)`; the timestamp is rendered by the caller. */
  function RequestLabel(rec: ApiRequest, timestamp: string): (r: string)
    ensures Text.StartsWith(r, rec.pokemonName + " - ")
    ensures var rest := r[|rec.pokemonName| + 3..];
            && (rec.success <==> Text.StartsWith(rest, "SUCCESS"))
            && (!rec.success <==> Text.StartsWith(rest, "ERROR"))
    ensures Text.EndsWith(r, timestamp + ")")
  {
    var status := if rec.success then "SUCCESS" else "ERROR";
    var r := rec.pokemonName + " - " + status + " (" + timestamp + ")";
    var rest := r[|rec.pokemonName| + 3..];
    assert r[..|rec.pokemonName| + 3] == rec.pokemonName + " - ";
    assert rest == status + " (" + timestamp + ")";
    assert rest[0] == status[0];
    assert r[|r| - |timestamp + ")"|..] == timestamp + ")";
    r
  }
}
