/**
 * The release endpoint `GET /api/releases` (app/api/releases/route.ts).
 *
 * The handler is modelled as a pure function of its inputs: the `type` query
 * parameter, the server configuration read from the environment, and the
 * outcome of each HTTP request the handler may issue. It answers a `Reply`:
 * the response it sends and, in order, the requests it issued, so that which
 * tiers of the fallback chain were consulted is part of what is proved.
 */
module Releases {

  import opened Wrappers
  import ReleaseVersion

  /** JavaScript truthiness of an environment variable or query parameter: unset and "" are both false. */
  predicate IsSet(v: Option<string>): (b: bool)
    ensures b <==> v != None && v != Some("")
  {
    v.Some? && v.value != ""
  }

  /** The environment variables the endpoint reads (tokens and keys only go into request headers). */
  datatype Config = Config(
    directDownloadUrl: Option<string>,  // NEXT_PUBLIC_DMG_DOWNLOAD_URL
    supabaseUrl: Option<string>,        // SUPABASE_URL
    supabaseBucketName: Option<string>, // SUPABASE_BUCKET_NAME
    githubRepo: Option<string>)         // GITHUB_REPO, "owner/name"

  /** How one awaited `fetch` (and the parsing of its body) ended. */
  datatype Fetched<+T> =
    | Threw          // the request or the parsing of its body raised an exception
    | NotOk          // the response arrived with a non-2xx status
    | Ok(payload: T) // a 2xx response and its parsed body

  /** A release asset in the GitHub "latest release" payload. */
  datatype Asset = Asset(name: string, browserDownloadUrl: string)

  /** The parts of the GitHub "latest release" payload the endpoint reads. */
  datatype GitHubRelease = GitHubRelease(tagName: string, assets: seq<Asset>)

  /** The HTTP requests the endpoint can issue. */
  datatype Request =
    | StorageList(url: string)    // list the bucket, newest `Pomodoro-` object first
    | GitHubLatest(url: string)   // the latest release of the repository
    | AppcastFile(url: string)    // the public appcast.xml object

  /** The tier of the fallback chain that produced a release descriptor. */
  datatype Source = Environment | Supabase | GitHub

  /** The `version` field of a release descriptor: left out, JSON null, or a string. */
  datatype VersionField = Omitted | Null | Present(version: string)

  /** What the handler sends back. */
  datatype Response =
    | ReleaseJson(url: string, version: VersionField, source: Source) // 200, `{url, version?, source}`
    | ErrorJson(status: nat, error: string)                            // `{error}` with that status
    | XmlBody(body: string)                                            // 200, Content-Type application/xml

  datatype Reply = Reply(response: Response, requests: seq<Request>)

  const DefaultBucket: string := "releases"
  const InvalidTypeMessage: string := "Invalid type parameter. Use 'latest' or 'appcast'"
  /** The names of the three settings, as the 404 message spells them. */
  const DirectUrlVariable: string := "NEXT_PUBLIC_DMG_DOWNLOAD_URL"
  const SupabaseUrlVariable: string := "SUPABASE_URL"
  const GitHubRepoVariable: string := "GITHUB_REPO"
  const NoReleaseMessage: string :=
    "No release URL found. Configure " + DirectUrlVariable + ", " + SupabaseUrlVariable + ", or " + GitHubRepoVariable
  const NotConfiguredMessage: string := "Supabase not configured"
  const AppcastNotFoundMessage: string := "Appcast not found"
  const AppcastFailedMessage: string := "Failed to fetch appcast"

  function Status(r: Response): nat {
    match r
    case ReleaseJson(_, _, _) => 200
    case ErrorJson(status, _) => status
    case XmlBody(_) => 200
  }

  /** The `source` string of a release descriptor. */
  function SourceName(s: Source): (name: string)
    ensures s == Environment <==> name == "environment"
    ensures s == Supabase <==> name == "supabase"
    ensures s == GitHub <==> name == "github"
  {
    match s
    case Environment => "environment"
    case Supabase => "supabase"
    case GitHub => "github"
  }

  /** A value of the JSON body the client receives. */
  datatype Json = JString(text: string) | JNull

  /**
   * The JSON body `NextResponse.json` sends: a release descriptor `{url, version?, source}`
   * (route.ts:46-49, 70-74, 104-108) or an error `{error}`; an XML reply has none.
   */
  function JsonBody(resp: Response): (body: Option<map<string, Json>>)
    ensures body.None? <==> resp.XmlBody?
    ensures resp.ErrorJson? ==> body.value.Keys == {"error"} && body.value["error"] == JString(resp.error)
    ensures resp.ReleaseJson? ==>
      && body.value.Keys == (if resp.version.Omitted? then {"url", "source"} else {"url", "version", "source"})
      && body.value["url"] == JString(resp.url)
      && body.value["source"] == JString(SourceName(resp.source))
      && (resp.version.Null? ==> body.value["version"] == JNull)
      && (resp.version.Present? ==> body.value["version"] == JString(resp.version.version))
  {
    match resp
    case ReleaseJson(url, version, source) =>
      var fields := map["url" := JString(url), "source" := JString(SourceName(source))];
      Some(match version
        case Omitted => fields
        case Null => fields["version" := JNull]
        case Present(v) => fields["version" := JString(v)])
    case ErrorJson(_, error) => Some(map["error" := JString(error)])
    case XmlBody(_) => None
  }

  /** The bucket name: SUPABASE_BUCKET_NAME, or "releases" when it is unset or empty. */
  function Bucket(cfg: Config): (b: string)
    ensures b != ""
    ensures IsSet(cfg.supabaseBucketName) ==> b == cfg.supabaseBucketName.value
  {
    if IsSet(cfg.supabaseBucketName) then cfg.supabaseBucketName.value else DefaultBucket
  }

  /** The query that lists the bucket, newest `Pomodoro-` object first, one entry (route.ts:57). */
  const ListQuery: string := "?prefix=Pomodoro-&sortBy=created_at&order=desc&limit=1"

  /** The listing request: the storage base URL, the list path of the bucket, then the query. */
  function StorageListUrl(cfg: Config): (u: string)
    requires IsSet(cfg.supabaseUrl)
    ensures OccursAt(u, cfg.supabaseUrl.value, 0)
    ensures OccursAt(u, "/storage/v1/object/list/" + Bucket(cfg), |cfg.supabaseUrl.value|)
    ensures EndsWith(u, ListQuery)
    ensures |u| == |cfg.supabaseUrl.value| + |"/storage/v1/object/list/" + Bucket(cfg)| + |ListQuery|
  {
    var base, path := cfg.supabaseUrl.value, "/storage/v1/object/list/" + Bucket(cfg);
    ConcatPieces(base, path, ListQuery);
    base + path + ListQuery
  }

  /** The public URL of object `name` in the bucket: the object name is the last path segment. */
  function PublicObjectUrl(cfg: Config, name: string): (u: string)
    requires IsSet(cfg.supabaseUrl)
    ensures OccursAt(u, cfg.supabaseUrl.value, 0)
    ensures OccursAt(u, "/storage/v1/object/public/" + Bucket(cfg), |cfg.supabaseUrl.value|)
    ensures EndsWith(u, "/" + name)
    ensures |u| == |cfg.supabaseUrl.value| + |"/storage/v1/object/public/" + Bucket(cfg)| + 1 + |name|
  {
    var base, path := cfg.supabaseUrl.value, "/storage/v1/object/public/" + Bucket(cfg);
    ConcatPieces(base, path, "/" + name);
    assert base + "/storage/v1/object/public/" + Bucket(cfg) + "/" + name == base + path + ("/" + name);
    base + "/storage/v1/object/public/" + Bucket(cfg) + "/" + name
  }

  /** The appcast request: `appcast.xml` in the public area of the bucket. */
  function AppcastUrl(cfg: Config): (u: string)
    requires IsSet(cfg.supabaseUrl)
    ensures OccursAt(u, cfg.supabaseUrl.value, 0)
    ensures OccursAt(u, "/storage/v1/object/public/" + Bucket(cfg), |cfg.supabaseUrl.value|)
    ensures EndsWith(u, "/appcast.xml")
    ensures |u| == |cfg.supabaseUrl.value| + |"/storage/v1/object/public/" + Bucket(cfg)| + |"/appcast.xml"|
  {
    var base, path := cfg.supabaseUrl.value, "/storage/v1/object/public/" + Bucket(cfg);
    ConcatPieces(base, path, "/appcast.xml");
    base + "/storage/v1/object/public/" + Bucket(cfg) + "/appcast.xml"
  }

  const GitHubApiRepos: string := "https://api.github.com/repos/"
  const LatestReleasePath: string := "/releases/latest"

  /** The GitHub request: the repository `owner/name` sits between the API prefix and `/releases/latest`. */
  function GitHubLatestUrl(cfg: Config): (u: string)
    requires IsSet(cfg.githubRepo)
    ensures OccursAt(u, GitHubApiRepos, 0)
    ensures |u| == |GitHubApiRepos| + |cfg.githubRepo.value| + |LatestReleasePath|
    ensures u[|GitHubApiRepos|..|u| - |LatestReleasePath|] == cfg.githubRepo.value
    ensures EndsWith(u, LatestReleasePath)
  {
    var repo := cfg.githubRepo.value;
    ConcatPieces(GitHubApiRepos, repo, LatestReleasePath);
    GitHubApiRepos + repo + LatestReleasePath
  }

  /** JavaScript's `s.endsWith(suffix)`: `s` is something followed by `suffix`. */
  predicate EndsWith(s: string, suffix: string): (b: bool)
    ensures b <==> exists front :: s == front + suffix
  {
    var b := |suffix| <= |s| && s[|s| - |suffix|..] == suffix;
    assert b ==> s == s[..|s| - |suffix|] + suffix;
    b
  }

  /** The three parts of `a + b + c` can be found where they were put. */
  lemma ConcatPieces(a: string, b: string, c: string)
    ensures OccursAt(a + b + c, a, 0)
    ensures OccursAt(a + b + c, b, |a|)
    ensures EndsWith(a + b + c, c)
    ensures (a + b + c)[|a|..|a| + |b|] == b
  {
    var s := a + b + c;
    assert s[0..|a|] == a;
    assert s[|a|..|a| + |b|] == b;
    assert s == (a + b) + c;
  }

  /** `assets.find(asset => asset.name.endsWith(".dmg"))`, as the index of the asset found. */
  function FindDmg(assets: seq<Asset>): (r: Option<nat>)
    ensures r.Some? ==> r.value < |assets| && EndsWith(assets[r.value].name, ".dmg")
    ensures r.Some? ==> forall j :: 0 <= j < r.value ==> !EndsWith(assets[j].name, ".dmg")
    ensures r.None? ==> forall j :: 0 <= j < |assets| ==> !EndsWith(assets[j].name, ".dmg")
  {
    if |assets| == 0 then None
    else if EndsWith(assets[0].name, ".dmg") then Some(0)
    else match FindDmg(assets[1..])
      case Some(k) => Some(k + 1)
      case None => None
  }

  /** The `version` field of the storage tier: `extractVersion(name)`, a string or null. */
  function VersionOf(v: Option<string>): (r: VersionField)
    ensures r != Omitted
    ensures r == Null <==> v == None
    ensures v.Some? ==> r.Present? && r.version == v.value
  {
    match v
    case Some(s) => Present(s)
    case None => Null
  }

  /** Tier 1 (route.ts:44-50): a configured direct download URL. None means "try the next tier". */
  function DirectTier(cfg: Config): (r: Option<Response>)
    ensures r.Some? <==> IsSet(cfg.directDownloadUrl)
    ensures r.Some? ==>
      r.value.ReleaseJson? && r.value.url == cfg.directDownloadUrl.value
      && r.value.version == Omitted && r.value.source == Environment
  {
    if IsSet(cfg.directDownloadUrl) then Some(ReleaseJson(cfg.directDownloadUrl.value, Omitted, Environment))
    else None
  }

  /** Tier 2 (route.ts:53-80): the first object of the bucket listing, when storage is configured. */
  function StorageTier(cfg: Config, listing: Fetched<seq<string>>): (r: Option<Response>)
    ensures r.Some? <==> IsSet(cfg.supabaseUrl) && listing.Ok? && |listing.payload| > 0
  {
    if !IsSet(cfg.supabaseUrl) then None
    else match listing
      case Ok(names) =>
        if |names| > 0 then
          var name := names[0];
          Some(ReleaseJson(PublicObjectUrl(cfg, name), VersionOf(ReleaseVersion.ExtractVersion(name)), Supabase))
        else None
      case NotOk => None
      case Threw => None
  }

  /** Tier 3 (route.ts:83-114): the first `.dmg` asset of the latest GitHub release. */
  function GitHubTier(cfg: Config, latest: Fetched<GitHubRelease>): (r: Option<Response>)
    ensures r.Some? <==> IsSet(cfg.githubRepo) && latest.Ok? && FindDmg(latest.payload.assets).Some?
  {
    if !IsSet(cfg.githubRepo) then None
    else match latest
      case Ok(release) =>
        (match FindDmg(release.assets)
         case Some(k) => Some(ReleaseJson(release.assets[k].browserDownloadUrl, Present(release.tagName), GitHub))
         case None => None)
      case NotOk => None
      case Threw => None
  }

  /** `r` is the answer of an ordered fallback over `tiers`: the first tier that answers, else `otherwise`. */
  ghost predicate FallbackAnswer(tiers: seq<Option<Response>>, otherwise: Response, r: Response) {
    (exists k :: 0 <= k < |tiers| && tiers[k] == Some(r) && forall j :: 0 <= j < k ==> tiers[j].None?)
    || ((forall k :: 0 <= k < |tiers| ==> tiers[k].None?) && r == otherwise)
  }

  /** `getLatestRelease()` (app/api/releases/route.ts:42-120). */
  function LatestRelease(cfg: Config, listing: Fetched<seq<string>>, latest: Fetched<GitHubRelease>): (r: Reply)
    ensures FallbackAnswer([DirectTier(cfg), StorageTier(cfg, listing), GitHubTier(cfg, latest)],
                           ErrorJson(404, NoReleaseMessage), r.response)
    ensures |r.requests| <= 2
    ensures (exists u :: StorageList(u) in r.requests) <==> !IsSet(cfg.directDownloadUrl) && IsSet(cfg.supabaseUrl)
    ensures (exists u :: GitHubLatest(u) in r.requests)
      <==> DirectTier(cfg).None? && StorageTier(cfg, listing).None? && IsSet(cfg.githubRepo)
    ensures |r.requests| == 2 ==> r.requests[0].StorageList? && r.requests[1].GitHubLatest?
    ensures forall q :: q in r.requests ==>
      (IsSet(cfg.supabaseUrl) && q == StorageList(StorageListUrl(cfg)))
      || (IsSet(cfg.githubRepo) && q == GitHubLatest(GitHubLatestUrl(cfg)))
    ensures Status(r.response) in {200, 404}
  {
    ghost var tiers := [DirectTier(cfg), StorageTier(cfg, listing), GitHubTier(cfg, latest)];
    if IsSet(cfg.directDownloadUrl) then
      assert tiers[0].Some?;
      Reply(ReleaseJson(cfg.directDownloadUrl.value, Omitted, Environment), [])
    else
      var storageRequests := if IsSet(cfg.supabaseUrl) then [StorageList(StorageListUrl(cfg))] else [];
      match StorageTier(cfg, listing)
      case Some(found) =>
        assert tiers[0].None? && tiers[1] == Some(found);
        Reply(found, storageRequests)
      case None =>
        var requests := storageRequests
          + if IsSet(cfg.githubRepo) then [GitHubLatest(GitHubLatestUrl(cfg))] else [];
        match GitHubTier(cfg, latest)
        case Some(found) =>
          assert tiers[0].None? && tiers[1].None? && tiers[2] == Some(found);
          Reply(found, requests)
        case None => Reply(ErrorJson(404, NoReleaseMessage), requests)
  }

  /** `getAppcast()` (app/api/releases/route.ts:125-157). */
  function Appcast(cfg: Config, appcast: Fetched<string>): (r: Reply)
    ensures !IsSet(cfg.supabaseUrl) ==> r == Reply(ErrorJson(400, NotConfiguredMessage), [])
    ensures IsSet(cfg.supabaseUrl) ==> r.requests == [AppcastFile(AppcastUrl(cfg))]
    ensures IsSet(cfg.supabaseUrl) ==> match appcast
      case Ok(text) => r.response == XmlBody(text)
      case NotOk => r.response == ErrorJson(404, AppcastNotFoundMessage)
      case Threw => r.response == ErrorJson(500, AppcastFailedMessage)
  {
    if !IsSet(cfg.supabaseUrl) then
      Reply(ErrorJson(400, NotConfiguredMessage), [])
    else
      var request := AppcastFile(AppcastUrl(cfg));
      match appcast
      case Ok(text) => Reply(XmlBody(text), [request])
      case NotOk => Reply(ErrorJson(404, AppcastNotFoundMessage), [request])
      case Threw => Reply(ErrorJson(500, AppcastFailedMessage), [request])
  }

  /** `GET(request)` (app/api/releases/route.ts:14-36): dispatch on the `type` query parameter. */
  function Get(typeParam: Option<string>, cfg: Config, listing: Fetched<seq<string>>,
               latest: Fetched<GitHubRelease>, appcast: Fetched<string>): (r: Reply)
    ensures !IsSet(typeParam) ==> r == LatestRelease(cfg, listing, latest)
    ensures IsSet(typeParam) ==>
      r == if typeParam.value == "latest" then LatestRelease(cfg, listing, latest)
           else if typeParam.value == "appcast" then Appcast(cfg, appcast)
           else Reply(ErrorJson(400, InvalidTypeMessage), [])
    ensures Status(r.response) in {200, 400, 404, 500}
  {
    var kind := if IsSet(typeParam) then typeParam.value else "latest";
    if kind == "latest" then LatestRelease(cfg, listing, latest)
    else if kind == "appcast" then Appcast(cfg, appcast)
    else Reply(ErrorJson(400, InvalidTypeMessage), [])
  }

  /** `part` occurs in `s` starting at position `i`. */
  predicate OccursAt(s: string, part: string, i: nat) {
    i + |part| <= |s| && s[i..i + |part|] == part
  }

  /** `part` occurs in `s` as a contiguous substring. */
  ghost predicate Contains(s: string, part: string) {
    exists i: nat :: OccursAt(s, part, i)
  }

  lemma ContainsMiddle(a: string, part: string, b: string)
    ensures Contains(a + part + b, part)
  {
    var s := a + part + b;
    assert forall k :: 0 <= k < |part| ==> s[|a|..|a| + |part|][k] == s[|a| + k] == part[k];
    assert OccursAt(s, part, |a|);
  }

  /** An unset or empty SUPABASE_BUCKET_NAME falls back to the "releases" bucket (route.ts:11). */
  lemma BucketDefault(cfg: Config)
    requires !IsSet(cfg.supabaseBucketName)
    ensures Bucket(cfg) == "releases"
  {
  }

  /** The appcast is the public object `appcast.xml` of the same bucket as the installers. */
  lemma AppcastUrlInBucket(cfg: Config)
    requires IsSet(cfg.supabaseUrl)
    ensures AppcastUrl(cfg) == PublicObjectUrl(cfg, "appcast.xml")
  {
    var base := cfg.supabaseUrl.value + "/storage/v1/object/public/" + Bucket(cfg);
    assert base + "/" + "appcast.xml" == base + "/appcast.xml";
  }

  /** A configured direct URL is answered as it is, with no version, whatever the other tiers would say. */
  lemma DirectUrlWins(cfg: Config, listing: Fetched<seq<string>>, latest: Fetched<GitHubRelease>)
    requires IsSet(cfg.directDownloadUrl)
    ensures LatestRelease(cfg, listing, latest)
      == Reply(ReleaseJson(cfg.directDownloadUrl.value, Omitted, Environment), [])
  {
  }

  /** Storage is consulted only without a direct URL and with SUPABASE_URL set; a non-empty listing answers. */
  lemma StorageTierAnswers(cfg: Config, names: seq<string>, latest: Fetched<GitHubRelease>)
    requires !IsSet(cfg.directDownloadUrl) && IsSet(cfg.supabaseUrl) && |names| > 0
    ensures LatestRelease(cfg, Ok(names), latest) == Reply(
      ReleaseJson(cfg.supabaseUrl.value + "/storage/v1/object/public/" + Bucket(cfg) + "/" + names[0],
                  VersionOf(ReleaseVersion.ExtractVersion(names[0])), Supabase),
      [StorageList(StorageListUrl(cfg))])
  {
  }

  /** A storage request that throws, is not OK or lists nothing ends as if storage were not configured. */
  lemma StorageFailureFallsThrough(cfg: Config, listing: Fetched<seq<string>>, latest: Fetched<GitHubRelease>)
    requires !(listing.Ok? && |listing.payload| > 0)
    ensures LatestRelease(cfg, listing, latest).response
      == LatestRelease(cfg.(supabaseUrl := None), listing, latest).response
  {
  }

  /** The GitHub tier answers with the first `.dmg` asset and the release tag as the version. */
  lemma GitHubTierAnswers(cfg: Config, listing: Fetched<seq<string>>, release: GitHubRelease, k: nat)
    requires !IsSet(cfg.directDownloadUrl) && StorageTier(cfg, listing).None? && IsSet(cfg.githubRepo)
    requires k < |release.assets| && EndsWith(release.assets[k].name, ".dmg")
    requires forall j :: 0 <= j < k ==> !EndsWith(release.assets[j].name, ".dmg")
    ensures LatestRelease(cfg, listing, Ok(release)).response
      == ReleaseJson(release.assets[k].browserDownloadUrl, Present(release.tagName), GitHub)
  {
    var found := FindDmg(release.assets);
    assert found.Some? && found.value == k;
  }

  /**
   * The `source` field the client receives names the tier that answered: "environment" exactly for a
   * direct URL, "supabase" exactly when storage answered, "github" exactly when only GitHub did; and
   * the `version` field is absent exactly for the direct URL.
   */
  lemma LatestSourceField(cfg: Config, listing: Fetched<seq<string>>, latest: Fetched<GitHubRelease>)
    ensures var resp := LatestRelease(cfg, listing, latest).response;
      resp.ReleaseJson? ==>
        && JsonBody(resp).Some?
        && (JsonBody(resp).value["source"] == JString("environment") <==> IsSet(cfg.directDownloadUrl))
        && (JsonBody(resp).value["source"] == JString("supabase")
            <==> DirectTier(cfg).None? && StorageTier(cfg, listing).Some?)
        && (JsonBody(resp).value["source"] == JString("github")
            <==> DirectTier(cfg).None? && StorageTier(cfg, listing).None? && GitHubTier(cfg, latest).Some?)
        && ("version" in JsonBody(resp).value <==> !IsSet(cfg.directDownloadUrl))
  {
  }

  /** When no tier answers the reply is the 404 error, and its message names all three settings. */
  lemma ExhaustedIsNotFound(cfg: Config, listing: Fetched<seq<string>>, latest: Fetched<GitHubRelease>)
    requires DirectTier(cfg).None? && StorageTier(cfg, listing).None? && GitHubTier(cfg, latest).None?
    ensures LatestRelease(cfg, listing, latest).response == ErrorJson(404, NoReleaseMessage)
    ensures Contains(NoReleaseMessage, DirectUrlVariable)
    ensures Contains(NoReleaseMessage, SupabaseUrlVariable)
    ensures Contains(NoReleaseMessage, GitHubRepoVariable)
  {
    var head := "No release URL found. Configure ";
    var tail := ", " + SupabaseUrlVariable + ", or " + GitHubRepoVariable;
    assert NoReleaseMessage == head + DirectUrlVariable + tail;
    ContainsMiddle(head, DirectUrlVariable, tail);
    head := head + DirectUrlVariable + ", ";
    tail := ", or " + GitHubRepoVariable;
    assert NoReleaseMessage == head + SupabaseUrlVariable + tail;
    ContainsMiddle(head, SupabaseUrlVariable, tail);
    head := head + SupabaseUrlVariable + ", or ";
    assert NoReleaseMessage == head + GitHubRepoVariable + "";
    ContainsMiddle(head, GitHubRepoVariable, "");
  }

  /** A missing or empty `type` is "latest"; any value other than the two known ones is a 400 with no request. */
  lemma GetDispatch(typeParam: Option<string>, cfg: Config, listing: Fetched<seq<string>>,
                    latest: Fetched<GitHubRelease>, appcast: Fetched<string>)
    ensures Get(None, cfg, listing, latest, appcast) == Get(Some(""), cfg, listing, latest, appcast)
      == Get(Some("latest"), cfg, listing, latest, appcast) == LatestRelease(cfg, listing, latest)
    ensures Get(Some("appcast"), cfg, listing, latest, appcast) == Appcast(cfg, appcast)
    ensures IsSet(typeParam) && typeParam.value != "latest" && typeParam.value != "appcast" ==>
      Get(typeParam, cfg, listing, latest, appcast) == Reply(ErrorJson(400, InvalidTypeMessage), [])
  {
  }
}
