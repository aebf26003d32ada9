/** The police-shooting script, hw1/analyze_shootings.py: seven raw columns
    are copied unchanged and three are bucketed through lookup tables into
    `region`, `weapon` and `escaping`. */
module AnalyzeShootings {
  import opened Wrappers

  datatype Region = WEST | SOUTHWEST | MIDWEST | SOUTHEAST | NORTHEAST
  datatype Weapon = GUN | NONE | OTHER

  /** Python's `KeyError`, carrying the key that was not found (`None` for NaN). */
  datatype KeyError = KeyError(key: Option<string>)

  /** State code to geographic region: the 50 states and DC. */
  const STATE_MAP: map<string, Region> := map[
    "AK" := WEST, "HI" := WEST, "CA" := WEST, "WA" := WEST, "OR" := WEST, "NV" := WEST,
    "MT" := WEST, "ID" := WEST, "WY" := WEST, "UT" := WEST, "CO" := WEST,
    "AZ" := SOUTHWEST, "NM" := SOUTHWEST, "OK" := SOUTHWEST, "TX" := SOUTHWEST,
    "KS" := MIDWEST, "ND" := MIDWEST, "SD" := MIDWEST, "NE" := MIDWEST, "MN" := MIDWEST,
    "IA" := MIDWEST, "MO" := MIDWEST, "IL" := MIDWEST, "IN" := MIDWEST, "WI" := MIDWEST,
    "MI" := MIDWEST, "OH" := MIDWEST,
    "AR" := SOUTHEAST, "LA" := SOUTHEAST, "MS" := SOUTHEAST, "KY" := SOUTHEAST, "TN" := SOUTHEAST,
    "AL" := SOUTHEAST, "GA" := SOUTHEAST, "FL" := SOUTHEAST, "SC" := SOUTHEAST, "NC" := SOUTHEAST,
    "VA" := SOUTHEAST, "WV" := SOUTHEAST, "MD" := SOUTHEAST, "DE" := SOUTHEAST, "DC" := SOUTHEAST,
    "PA" := NORTHEAST, "NY" := NORTHEAST, "NJ" := NORTHEAST, "CT" := NORTHEAST, "RI" := NORTHEAST,
    "MA" := NORTHEAST, "NH" := NORTHEAST, "VT" := NORTHEAST, "ME" := NORTHEAST]

  /** Weapon descriptions with a bucket of their own; all others are OTHER. */
  const WEAPON_MAP: map<string, Weapon> := map[
    "gun" := GUN, "guns and explosives" := GUN, "gun and machete" := GUN, "gun and knife" := GUN,
    "hatchet and gun" := GUN, "machete and gun" := GUN, "gun and sword" := GUN, "gun and car" := GUN,
    "gun and vehicle" := GUN, "vehicle and gun" := GUN,
    "unarmed" := NONE, "undetermined" := NONE]

  /** Flight categories to "was escaping". */
  const FLEEING_MAP: map<string, bool> := map[
    "Not fleeing" := false, "Foot" := true, "Car" := true, "Other" := true]

  /** One raw record; `None` is a NaN cell. */
  datatype Record = Record(
    date: Option<string>,
    age: Option<int>,
    gender: Option<string>,
    race: Option<string>,
    state: Option<string>,
    armed: Option<string>,
    flee: Option<string>,
    threatLevel: Option<string>,
    signsOfMentalIllness: Option<bool>,
    bodyCamera: Option<bool>)

  /** `Series.fillna(fill)` on one cell. */
  function FillNa(cell: Option<string>, fill: string): (r: string)
    ensures cell.Some? ==> r == cell.value
    ensures cell.None? ==> r == fill
  {
    if cell.Some? then cell.value else fill
  }

  /** `m[key]` on a Python dict: a key that is absent, NaN included, raises
      KeyError. */
  function Lookup<V>(m: map<string, V>, key: Option<string>): (r: Result<V, KeyError>)
    ensures r.Ok? <==> key.Some? && key.value in m
    ensures r.Ok? ==> r.value == m[key.value]
    ensures r.Err? ==> r.error == KeyError(key)
  {
    if key.Some? && key.value in m then Ok(m[key.value]) else Err(KeyError(key))
  }

  /** `STATE_MAP[r]`: partial, with no default for NaN or an unknown code. */
  function RegionOf(state: Option<string>): (r: Result<Region, KeyError>)
    ensures r.Err? <==> state.None? || state.value !in STATE_MAP
    ensures r.Ok? ==> r.value == STATE_MAP[state.value]
    ensures r.Err? ==> r.error == KeyError(state)
  {
    Lookup(STATE_MAP, state)
  }

  /** `fillna("unarmed")`, then the weapon table with OTHER for anything it
      does not list. */
  function WeaponOf(armed: Option<string>): (w: Weapon)
    ensures armed.None? ==> w == NONE
    ensures w == NONE <==> armed.None? || armed == Some("unarmed") || armed == Some("undetermined")
    ensures armed.Some? && armed.value in WEAPON_MAP ==> w == WEAPON_MAP[armed.value]
    ensures armed.Some? && armed.value !in WEAPON_MAP ==> w == OTHER
    ensures w == GUN ==> armed.Some? && ContainsGun(armed.value)
  {
    var a := FillNa(armed, "unarmed");
    GunKeysMentionGun();
    if a in WEAPON_MAP then WEAPON_MAP[a] else OTHER
  }

  /** "gun" occurs somewhere in `s`. */
  predicate ContainsGun(s: string) {
    exists i :: 0 <= i <= |s| - 3 && s[i] == 'g' && s[i + 1] == 'u' && s[i + 2] == 'n'
  }

  /** Every description the table buckets as GUN mentions a gun. */
  lemma GunKeysMentionGun()
    ensures forall k :: k in WEAPON_MAP && WEAPON_MAP[k] == GUN ==> ContainsGun(k)
  {
    forall k | k in WEAPON_MAP && WEAPON_MAP[k] == GUN
      ensures ContainsGun(k)
    {
      var i := if k == "hatchet and gun" then 12
        else if k == "machete and gun" then 12
        else if k == "vehicle and gun" then 12
        else 0;
      assert k[i] == 'g' && k[i + 1] == 'u' && k[i + 2] == 'n';
    }
  }

  /** `fillna("Not fleeing")`, then the flight table, which has no default. */
  function EscapingOf(flee: Option<string>): (r: Result<bool, KeyError>)
    ensures r == Ok(false) <==> flee.None? || flee == Some("Not fleeing")
    ensures r == Ok(true) <==> flee == Some("Foot") || flee == Some("Car") || flee == Some("Other")
    ensures r.Err? <==> flee.Some? && flee.value !in {"Not fleeing", "Foot", "Car", "Other"}
    ensures r.Err? ==> r.error == KeyError(flee)
  {
    Lookup(FLEEING_MAP, Some(FillNa(flee, "Not fleeing")))
  }

  /** `Series.apply(f)` on one column of the raw table, with an `f` that may
      raise: the first row that raises aborts the whole column. */
  function ApplyColumn<V>(f: Record -> Result<V, KeyError>, raw: seq<Record>): (r: Result<seq<V>, KeyError>)
    ensures r.Ok? <==> forall i :: 0 <= i < |raw| ==> f(raw[i]).Ok?
    ensures r.Ok? ==> |r.value| == |raw| && forall i :: 0 <= i < |raw| ==> r.value[i] == f(raw[i]).value
    ensures r.Err? ==> FirstError(f, raw, r.error)
  {
    if raw == [] then Ok([])
    else
      var head := f(raw[0]);
      if head.Err? then
        assert FirstErrorAt(f, raw, head.error, 0);
        Err(head.error)
      else
        var tail := ApplyColumn(f, raw[1..]);
        if tail.Err? then
          var i :| FirstErrorAt(f, raw[1..], tail.error, i);
          assert FirstErrorAt(f, raw, tail.error, i + 1);
          Err(tail.error)
        else Ok([head.value] + tail.value)
  }

  /** Row `i` is the first row on which `f` raises, and it raises `e`. */
  predicate FirstErrorAt<V>(f: Record -> Result<V, KeyError>, raw: seq<Record>, e: KeyError, i: int) {
    0 <= i < |raw| && f(raw[i]) == Err(e) && forall j :: 0 <= j < i ==> f(raw[j]).Ok?
  }

  ghost predicate FirstError<V>(f: Record -> Result<V, KeyError>, raw: seq<Record>, e: KeyError) {
    exists i :: 0 <= i < |raw| && FirstErrorAt(f, raw, e, i)
  }

  function RegionCell(rec: Record): Result<Region, KeyError> { RegionOf(rec.state) }
  function EscapingCell(rec: Record): Result<bool, KeyError> { EscapingOf(rec.flee) }

  /** The munged table, column by column. */
  datatype Dataframe = Dataframe(
    date: seq<Option<string>>,
    age: seq<Option<int>>,
    gender: seq<Option<string>>,
    race: seq<Option<string>>,
    threatLevel: seq<Option<string>>,
    signsOfMentalIllness: seq<Option<bool>>,
    bodyCamera: seq<Option<bool>>,
    region: seq<Region>,
    weapon: seq<Weapon>,
    escaping: seq<bool>)

  /** Every column has one cell per raw row. */
  predicate Shaped(df: Dataframe, n: nat) {
    |df.date| == |df.age| == |df.gender| == |df.race| == |df.threatLevel| == n &&
    |df.signsOfMentalIllness| == |df.bodyCamera| == n &&
    |df.region| == |df.weapon| == |df.escaping| == n
  }

  /** Row `i` of `df` holds the seven copied cells of raw row `i` unchanged. */
  predicate CopiedAt(df: Dataframe, raw: seq<Record>, i: int)
    requires Shaped(df, |raw|) && 0 <= i < |raw|
  {
    df.date[i] == raw[i].date && df.age[i] == raw[i].age && df.gender[i] == raw[i].gender &&
    df.race[i] == raw[i].race && df.threatLevel[i] == raw[i].threatLevel &&
    df.signsOfMentalIllness[i] == raw[i].signsOfMentalIllness && df.bodyCamera[i] == raw[i].bodyCamera
  }

  /** Row `i` of `df` holds the buckets of raw row `i`. */
  predicate BucketedAt(df: Dataframe, raw: seq<Record>, i: int)
    requires Shaped(df, |raw|) && 0 <= i < |raw|
  {
    Ok(df.region[i]) == RegionOf(raw[i].state) && df.weapon[i] == WeaponOf(raw[i].armed) &&
    Ok(df.escaping[i]) == EscapingOf(raw[i].flee)
  }

  /** The munging step: copy seven columns, then assign `region`, `weapon`
      and `escaping` in that order. A KeyError from the region column stops
      the script before the escaping column is built. */
  method BuildDataframe(raw: seq<Record>) returns (r: Result<Dataframe, KeyError>)
    ensures r.Ok? <==> forall i :: 0 <= i < |raw| ==> RegionOf(raw[i].state).Ok? && EscapingOf(raw[i].flee).Ok?
    ensures r.Ok? ==> Shaped(r.value, |raw|)
    ensures r.Ok? ==> forall i :: 0 <= i < |raw| ==> CopiedAt(r.value, raw, i) && BucketedAt(r.value, raw, i)
    ensures r.Err? && !ApplyColumn(RegionCell, raw).Ok? ==> FirstError(RegionCell, raw, r.error)
    ensures r.Err? && ApplyColumn(RegionCell, raw).Ok? ==> FirstError(EscapingCell, raw, r.error)
  {
    var date := seq(|raw|, i requires 0 <= i < |raw| => raw[i].date);
    var age := seq(|raw|, i requires 0 <= i < |raw| => raw[i].age);
    var gender := seq(|raw|, i requires 0 <= i < |raw| => raw[i].gender);
    var race := seq(|raw|, i requires 0 <= i < |raw| => raw[i].race);
    var threatLevel := seq(|raw|, i requires 0 <= i < |raw| => raw[i].threatLevel);
    var signsOfMentalIllness := seq(|raw|, i requires 0 <= i < |raw| => raw[i].signsOfMentalIllness);
    var bodyCamera := seq(|raw|, i requires 0 <= i < |raw| => raw[i].bodyCamera);

    var region := ApplyColumn(RegionCell, raw);
    if region.Err? {
      return Err(region.error);
    }
    var weapon := seq(|raw|, i requires 0 <= i < |raw| => WeaponOf(raw[i].armed));
    var escaping := ApplyColumn(EscapingCell, raw);
    if escaping.Err? {
      return Err(escaping.error);
    }
    r := Ok(Dataframe(date, age, gender, race, threatLevel, signsOfMentalIllness, bodyCamera,
                      region.value, weapon, escaping.value));
  }
}
