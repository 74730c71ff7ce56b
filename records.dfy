/** The record normalisers `selectStudio`, `selectFingerprints`,
    `selectTags`, `selectPerformers` and `selectScenes`: they turn the
    metadata provider's loosely typed records (every field may be null) into
    the strict shapes the Tagger works with. */
module Records {
  import opened Wrappers
  import opened Text

  datatype Gender = Male | Female | TransgenderMale | TransgenderFemale | Intersex | NonBinary

  /** A content hash with its algorithm and the duration (whole seconds) it reports. */
  datatype Fingerprint = Fingerprint(hash: string, algorithm: string, duration: int)

  // ---- provider records, as they arrive (null is `None`) ----

  datatype ScrapedStudio = ScrapedStudio(
    storedId: Option<string>, remoteSiteId: Option<string>, name: string, url: Option<string>)

  datatype ScrapedTag = ScrapedTag(storedId: Option<string>, name: Option<string>)

  datatype ScrapedPerformer = ScrapedPerformer(
    storedId: Option<string>, remoteSiteId: Option<string>, name: Option<string>,
    gender: Option<Gender>, url: Option<string>, twitter: Option<string>,
    instagram: Option<string>, birthdate: Option<string>, ethnicity: Option<string>,
    country: Option<string>, eyeColor: Option<string>, height: Option<string>,
    measurements: Option<string>, fakeTits: Option<string>, careerLength: Option<string>,
    tattoos: Option<string>, piercings: Option<string>, aliases: Option<string>,
    images: Option<seq<string>>, details: Option<string>, deathDate: Option<string>,
    hairColor: Option<string>)

  datatype ScrapedScene = ScrapedScene(
    remoteSiteId: Option<string>, title: Option<string>, date: Option<string>,
    duration: Option<int>, details: Option<string>, url: Option<string>,
    image: Option<string>, studio: Option<ScrapedStudio>,
    fingerprints: Option<seq<Fingerprint>>, performers: Option<seq<ScrapedPerformer>>,
    tags: Option<seq<ScrapedTag>>)

  // ---- normalised records ----

  /** `stashId` stays optional: the source only asserts `remote_site_id!`
      to the type checker, so a missing identifier passes through. */
  datatype Studio = Studio(id: Option<string>, stashId: Option<string>, name: string, url: Option<string>)

  datatype Tag = Tag(id: Option<string>, name: string)

  datatype Performer = Performer(
    id: Option<string>, stashId: Option<string>, name: string, gender: Option<Gender>,
    url: Option<string>, twitter: Option<string>, instagram: Option<string>,
    birthdate: Option<string>, ethnicity: Option<string>, country: Option<string>,
    eyeColor: Option<string>, height: Option<string>, measurements: Option<string>,
    fakeTits: Option<string>, careerLength: Option<string>, tattoos: Option<string>,
    piercings: Option<string>, aliases: Option<string>, images: seq<string>,
    details: Option<string>, deathDate: Option<string>, hairColor: Option<string>)

  datatype Scene = Scene(
    stashId: Option<string>, title: string, date: string, duration: int,
    details: Option<string>, url: Option<string>, studio: Studio, images: seq<string>,
    tags: seq<Tag>, performers: seq<Performer>, fingerprints: seq<Fingerprint>)

  /** Reading `studio.remote_site_id` of a null studio throws. */
  datatype NormalizeError = MissingStudio

  /** The ISO country-code lookup `getCountryByISO`, supplied by the caller. */
  type CountryLookup = Option<string> -> Option<string>

  /** JavaScript truthiness of an optional string: present and non-empty. */
  predicate Truthy(s: Option<string>) { s.Some? && s.value != "" }

  /** `r` is absent exactly when `v` is falsy, and otherwise is `v` title-cased. */
  predicate TitleCasedFrom(r: Option<string>, v: Option<string>)
  {
    (r.None? <==> !Truthy(v)) && (r.Some? ==> r.value == TitleCase(v.value))
  }

  /** `v ? toTitleCase(v) : undefined`. */
  function TitleCaseIfTruthy(v: Option<string>): (r: Option<string>)
    ensures TitleCasedFrom(r, v)
    ensures r.Some? ==> r.value != "" && TitleCase(r.value) == r.value
  {
    if Truthy(v) then
      TitleCaseEmpty(v.value);
      TitleCaseIdempotent(v.value);
      Some(TitleCase(v.value))
    else None
  }

  /** A title-cased descriptor is left as it is by a second pass. */
  lemma TitleCaseIfTruthyStable(v: Option<string>)
    ensures TitleCaseIfTruthy(TitleCaseIfTruthy(v)) == TitleCaseIfTruthy(v)
  {
  }

  /** `selectStudio`. A null studio is dereferenced and throws. */
  function SelectStudio(studio: Option<ScrapedStudio>): (r: Result<Studio, NormalizeError>)
    ensures r.Failure? <==> studio.None?
    ensures r.Success? ==>
      && r.value.id == studio.value.storedId
      && r.value.stashId == studio.value.remoteSiteId
      && r.value.name == studio.value.name
      && r.value.url == studio.value.url
  {
    match studio
    case None => Failure(MissingStudio)
    case Some(s) => Success(Studio(s.storedId, s.remoteSiteId, s.name, s.url))
  }

  /** `selectFingerprints`: the scene's fingerprints unchanged, or none. */
  function SelectFingerprints(scene: Option<ScrapedScene>): (r: seq<Fingerprint>)
    ensures scene.None? || scene.value.fingerprints.None? ==> r == []
    ensures scene.Some? && scene.value.fingerprints.Some? ==> r == scene.value.fingerprints.value
  {
    match scene
    case None => []
    case Some(s) => s.fingerprints.GetOr([])
  }

  function SelectTag(t: ScrapedTag): Tag
  {
    Tag(t.storedId, t.name.GetOr(""))
  }

  /** `selectTags`: one tag per input tag, same order; a missing name
      becomes the empty string. */
  function SelectTags(tags: seq<ScrapedTag>): (r: seq<Tag>)
    ensures |r| == |tags|
    ensures forall k :: 0 <= k < |r| ==>
      && r[k].id == tags[k].storedId
      && (tags[k].name.Some? ==> r[k].name == tags[k].name.value)
      && (tags[k].name.None? ==> r[k].name == "")
  {
    seq(|tags|, k requires 0 <= k < |tags| => SelectTag(tags[k]))
  }

  /** One element of `selectPerformers`. The field rules: defaults for name,
      gender and images; the title-cased descriptors are absent exactly when
      the provider value is falsy (null or ""), otherwise title-cased; the
      country goes through the lookup; everything else passes through
      unchanged (`?? undefined` keeps ""). */
  function SelectPerformer(lookup: CountryLookup, p: ScrapedPerformer): (r: Performer)
    ensures
      && r.id == p.storedId && r.stashId == p.remoteSiteId
      && (p.name.None? ==> r.name == "") && (p.name.Some? ==> r.name == p.name.value)
      && (p.gender.None? ==> r.gender == Some(Female)) && (p.gender.Some? ==> r.gender == p.gender)
      && (p.images.None? ==> r.images == []) && (p.images.Some? ==> r.images == p.images.value)
      && TitleCasedFrom(r.ethnicity, p.ethnicity) && TitleCasedFrom(r.eyeColor, p.eyeColor)
      && TitleCasedFrom(r.fakeTits, p.fakeTits) && TitleCasedFrom(r.tattoos, p.tattoos)
      && TitleCasedFrom(r.piercings, p.piercings)
      && r.country == lookup(p.country)
      && r.url == p.url && r.twitter == p.twitter && r.instagram == p.instagram
      && r.birthdate == p.birthdate && r.height == p.height && r.measurements == p.measurements
      && r.careerLength == p.careerLength && r.aliases == p.aliases && r.details == p.details
      && r.deathDate == p.deathDate && r.hairColor == p.hairColor
  {
    Performer(
      id := p.storedId,
      stashId := p.remoteSiteId,
      name := p.name.GetOr(""),
      gender := Some(p.gender.GetOr(Female)),
      url := p.url,
      twitter := p.twitter,
      instagram := p.instagram,
      birthdate := p.birthdate,
      ethnicity := TitleCaseIfTruthy(p.ethnicity),
      country := lookup(p.country),
      eyeColor := TitleCaseIfTruthy(p.eyeColor),
      height := p.height,
      measurements := p.measurements,
      fakeTits := TitleCaseIfTruthy(p.fakeTits),
      careerLength := p.careerLength,
      tattoos := TitleCaseIfTruthy(p.tattoos),
      piercings := TitleCaseIfTruthy(p.piercings),
      aliases := p.aliases,
      images := p.images.GetOr([]),
      details := p.details,
      deathDate := p.deathDate,
      hairColor := p.hairColor)
  }

  /** A title-cased descriptor that is present is non-empty and already in
      title case. */
  predicate TitleCased(v: Option<string>) { v.Some? ==> v.value != "" && TitleCase(v.value) == v.value }

  /** What every normalised performer satisfies. */
  predicate WellFormedPerformer(p: Performer)
  {
    && p.gender.Some?
    && TitleCased(p.ethnicity) && TitleCased(p.eyeColor) && TitleCased(p.fakeTits)
    && TitleCased(p.tattoos) && TitleCased(p.piercings)
  }

  /** `selectPerformers`: one performer per input performer, same order. */
  function SelectPerformers(lookup: CountryLookup, performers: seq<ScrapedPerformer>): (r: seq<Performer>)
    ensures |r| == |performers|
    ensures forall k :: 0 <= k < |r| ==> WellFormedPerformer(r[k])
    ensures forall k :: 0 <= k < |r| ==>
      r[k].stashId == performers[k].remoteSiteId && r[k].name == performers[k].name.GetOr("")
    ensures forall k :: 0 <= k < |r| ==> r[k] == SelectPerformer(lookup, performers[k])
  {
    seq(|performers|, k requires 0 <= k < |performers| => SelectPerformer(lookup, performers[k]))
  }

  /** A normalised performer read back as a provider record with the same
      field names. */
  function AsScraped(p: Performer): ScrapedPerformer
  {
    ScrapedPerformer(
      p.id, p.stashId, Some(p.name), p.gender, p.url, p.twitter, p.instagram, p.birthdate,
      p.ethnicity, p.country, p.eyeColor, p.height, p.measurements, p.fakeTits,
      p.careerLength, p.tattoos, p.piercings, p.aliases, Some(p.images), p.details,
      p.deathDate, p.hairColor)
  }

  /** Normalising an already normalised performer again reproduces it,
      except that the country goes through the lookup a second time. */
  lemma SelectPerformerStable(lookup: CountryLookup, p: ScrapedPerformer)
    ensures var q := SelectPerformer(lookup, p);
      SelectPerformer(lookup, AsScraped(q)) == q.(country := lookup(q.country))
  {
    TitleCaseIfTruthyStable(p.ethnicity);
    TitleCaseIfTruthyStable(p.eyeColor);
    TitleCaseIfTruthyStable(p.fakeTits);
    TitleCaseIfTruthyStable(p.tattoos);
    TitleCaseIfTruthyStable(p.piercings);
  }

  /** One element of `selectScenes`. */
  function SelectScene(lookup: CountryLookup, s: ScrapedScene): (r: Result<Scene, NormalizeError>)
    ensures r.Failure? <==> s.studio.None?
    ensures r.Success? ==>
      && r.value.stashId == s.remoteSiteId
      && r.value.title == s.title.GetOr("") && r.value.date == s.date.GetOr("")
      && r.value.duration == s.duration.GetOr(0)
      && r.value.details == s.details && r.value.url == s.url
      // `s.image ? [s.image] : []`
      && (r.value.images == [] <==> !Truthy(s.image))
      && (Truthy(s.image) ==> r.value.images == [s.image.value])
      && r.value.studio == SelectStudio(s.studio).value
      && r.value.tags == SelectTags(s.tags.GetOr([]))
      && r.value.performers == SelectPerformers(lookup, s.performers.GetOr([]))
      && r.value.fingerprints == s.fingerprints.GetOr([])
  {
    match SelectStudio(s.studio)
    case Failure(e) => Failure(e)
    case Success(studio) =>
      Success(Scene(
        stashId := s.remoteSiteId,
        title := s.title.GetOr(""),
        date := s.date.GetOr(""),
        duration := s.duration.GetOr(0),
        details := s.details,
        url := s.url,
        images := if Truthy(s.image) then [s.image.value] else [],
        studio := studio,
        fingerprints := SelectFingerprints(Some(s)),
        performers := SelectPerformers(lookup, s.performers.GetOr([])),
        tags := SelectTags(s.tags.GetOr([]))))
  }

  /** `filter((s) => s !== null)`. */
  function NonNull(xs: seq<Option<ScrapedScene>>): (r: seq<ScrapedScene>)
    ensures |r| <= |xs|
    ensures forall y :: y in r <==> Some(y) in xs
  {
    if xs == [] then []
    else
      assert forall y :: Some(y) in xs <==> xs[0] == Some(y) || Some(y) in xs[1..];
      match xs[0]
      case None => NonNull(xs[1..])
      case Some(x) => [x] + NonNull(xs[1..])
  }

  /** The null filter is order-preserving: filtering a concatenation
      concatenates the filtered parts. */
  lemma {:induction false} NonNullConcat(xs: seq<Option<ScrapedScene>>, ys: seq<Option<ScrapedScene>>)
    ensures NonNull(xs + ys) == NonNull(xs) + NonNull(ys)
  {
    if xs == [] {
      assert xs + ys == ys;
    } else {
      assert (xs + ys)[0] == xs[0];
      assert (xs + ys)[1..] == xs[1..] + ys;
      NonNullConcat(xs[1..], ys);
    }
  }

  /** Maps the non-null scenes in order; the first scene without a studio
      makes the whole call throw. */
  function SelectAll(lookup: CountryLookup, scenes: seq<ScrapedScene>): (r: Result<seq<Scene>, NormalizeError>)
    ensures r.Failure? <==> exists k :: 0 <= k < |scenes| && scenes[k].studio.None?
    ensures r.Success? ==> |r.value| == |scenes|
    ensures r.Success? ==> forall k :: 0 <= k < |scenes| ==> Success(r.value[k]) == SelectScene(lookup, scenes[k])
  {
    if scenes == [] then Success([])
    else
      match SelectScene(lookup, scenes[0])
      case Failure(e) => Failure(e)
      case Success(first) =>
        match SelectAll(lookup, scenes[1..])
        case Failure(e) =>
          assert exists k :: 0 <= k < |scenes| && scenes[k].studio.None? by {
            var k :| 0 <= k < |scenes[1..]| && scenes[1..][k].studio.None?;
            assert scenes[k + 1] == scenes[1..][k];
          }
          Failure(e)
        case Success(rest) =>
          assert forall k :: 0 < k < |scenes| ==> scenes[k] == scenes[1..][k - 1];
          Success([first] + rest)
  }

  /** `selectScenes`: drops null entries (a missing list counts as empty)
      and normalises the rest in order. */
  function SelectScenes(lookup: CountryLookup, scenes: Option<seq<Option<ScrapedScene>>>): (r: Result<seq<Scene>, NormalizeError>)
    ensures r.Failure? <==> exists s :: Some(s) in scenes.GetOr([]) && s.studio.None?
    ensures r.Success? ==> |r.value| == |NonNull(scenes.GetOr([]))|
    ensures r.Success? ==> forall k :: 0 <= k < |r.value| ==>
      Success(r.value[k]) == SelectScene(lookup, NonNull(scenes.GetOr([]))[k])
    ensures scenes.None? ==> r == Success([])
  {
    var present := NonNull(scenes.GetOr([]));
    var r := SelectAll(lookup, present);
    assert r.Failure? ==> exists s :: Some(s) in scenes.GetOr([]) && s.studio.None? by {
      if r.Failure? {
        var k :| 0 <= k < |present| && present[k].studio.None?;
        assert present[k] in present;
      }
    }
    r
  }
}
