# Release resolution and colour strings of the Pomodoro landing site

This project models, in Dafny, the two pieces of logic in the landing website
of the Pomodoro desktop timer that carry decisions worth proving.

- **The release endpoint** `GET /api/releases` (`app/api/releases/route.ts`).
  - With `type=latest`, or no `type` at all, it resolves the download URL of the
    newest installer through an ordered fallback chain, stopping at the first
    tier that answers:
    1. a directly configured URL;
    2. the newest `Pomodoro-` object of a Supabase storage bucket;
    3. the first `.dmg` asset of the latest GitHub release.

    When no tier answers, the result is a 404.
  - With `type=appcast`, it returns the `appcast.xml` feed stored in the same
    bucket.
  - Any other `type` gives a 400.
  - `extractVersion` pulls the `<major>.<minor>` label out of an installer file name.
- **`color2Hex`** (`components/landing/VantaTrunkBackground.tsx`). It turns a colour
  number into the CSS string `#rrggbb`.

Both pieces are pure code, so the model is made of datatypes, functions and lemmas:

- `wrappers.dfy`, module `Wrappers`: the `Option` type. It stands for `string | null`
  and for environment variables that may be unset.
- `release_version.dfy`, module `ReleaseVersion`: `extractVersion`.
  - `MatchesAt` and `IsLeftmostMatch` describe the leftmost match of the unanchored
    pattern `Pomodoro-([0-9]+\.[0-9]+)\.dmg` without a regular-expression engine.
  - `ExtractVersion` scans the name position by position. It is proved to return
    exactly the capture of that leftmost match, or null when there is no match.
- `releases.dfy`, module `Releases`: the handler as a function of its inputs.
  - The inputs are the `type` query parameter, a `Config` record holding the
    environment variables, and one `Fetched` outcome for each HTTP request the
    handler may issue. A `Fetched` outcome is one of: threw, non-OK status, or OK
    with a parsed body.
  - The handler answers a `Reply`. It holds the response (a release descriptor, a
    JSON error with its status, or an XML body) and the requests issued, in order.
  - Because the requests are part of the reply, "a tier is consulted only when …"
    is a proved property.
- `vanta_color.dfy`, module `VantaColor`: `color2Hex` and the parts it is built
  from.
  - `ToHexString` models `Number.prototype.toString(16)`.
  - `PadStart` models `String.prototype.padStart`.
  - `ParseHex` is the reading of hexadecimal digits. It is the inverse used in
    the round-trip lemmas.

Environment variables are `Option<string>`. The source only tests them for
JavaScript truthiness (`if (x)`, `x || default`), so an empty value behaves
exactly like an unset one. The predicate `IsSet` states that, and the
`type` query parameter is treated the same way.

The doc comment at the top of the route (app/api/releases/route.ts:6-7) names
the paths `/api/releases/latest` and `/api/releases/appcast`. The code does not
route on the path: it dispatches on the `type` query parameter
(app/api/releases/route.ts:16-28). The model follows the code.

## Model

| member | source | states |
|---|---|---|
| `ReleaseVersion.DigitRunEnd` | app/api/releases/route.ts:163 | a greedy `[0-9]+` stops at the first non-digit: everything it passes over is a digit, and what follows is not |
| `ReleaseVersion.MatchAt` | app/api/releases/route.ts:163 | whatever it captures at a position is a genuine match of the pattern there |
| `ReleaseVersion.MatchAtComplete` | app/api/releases/route.ts:163 | every match of the pattern at a position is found, with the same capture, because a greedy digit run cannot swallow the dot |
| `ReleaseVersion.MatchUnique` | app/api/releases/route.ts:163 | at one position the pattern can capture only one version |
| `ReleaseVersion.ExtractFrom` | app/api/releases/route.ts:163-164 | scanning from a position returns the capture of the first match at or after it, or nothing when no later position matches |
| `ReleaseVersion.ExtractVersion` | app/api/releases/route.ts:162-165 | null exactly when the pattern matches nowhere in the name; otherwise the capture of a leftmost match |
| `ReleaseVersion.LeftmostMatchIsExtracted` | app/api/releases/route.ts:162-165 | the converse: whenever the pattern's leftmost match captures `v`, the result is `v` |
| `ReleaseVersion.ExtractVersionRoundTrip` | app/api/releases/route.ts:160-165 | the name `Pomodoro-<v>.dmg` of any well-formed version `v` yields `v` back |
| `ReleaseVersion.ExtractedVersionShape` | app/api/releases/route.ts:163-164 | a non-null result has exactly one dot, only digits otherwise, and a digit at both ends |
| `ReleaseVersion.ExtractVersionExample` | app/api/releases/route.ts:160 | `Pomodoro-1.0.dmg` gives `1.0` |
| `Releases.SourceName` | app/api/releases/route.ts:46-108 | each tier has its own `source` string: `environment` exactly for the direct URL, `supabase` exactly for storage, `github` exactly for GitHub |
| `Releases.JsonBody` | app/api/releases/route.ts:46-119 | a release descriptor is sent as the fields `url`, `source` (the tier's string) and `version` (null or a string, absent for the direct URL), an error as the single field `error`, and the XML appcast with no JSON body |
| `Releases.LatestSourceField` | app/api/releases/route.ts:42-120 | the `source` field the client receives is `environment` exactly for a direct URL, `supabase` exactly when storage answered, `github` exactly when only GitHub did, and `version` is absent exactly for the direct URL |
| `Releases.IsSet` | app/api/releases/route.ts:45 | a setting counts as configured exactly when it is neither unset nor the empty string, as JavaScript truthiness decides at each `if (x)` and `x \|\| default` |
| `Releases.DirectTier` | app/api/releases/route.ts:44-50 | the direct tier answers exactly when NEXT_PUBLIC_DMG_DOWNLOAD_URL is set, and then with that URL, tag `environment` and no version field |
| `Releases.EndsWith` | app/api/releases/route.ts:100 | `endsWith` holds exactly when the string is some prefix followed by the suffix |
| `Releases.VersionOf` | app/api/releases/route.ts:72 | the storage descriptor always carries a `version` field: null exactly when no version was extracted, otherwise the extracted string |
| `Releases.StorageListUrl` | app/api/releases/route.ts:57 | the listing request starts with the storage base URL, continues with the bucket's list path, and ends with the `Pomodoro-` newest-first, one-entry query, with nothing else in between (the length is the sum of the three), so it is exactly the URL the source builds |
| `Releases.PublicObjectUrl` | app/api/releases/route.ts:69 | a download URL starts with the storage base URL, continues with the bucket's public path, and ends with `/` and the object name, with nothing else in between, so it is exactly `<base>/storage/v1/object/public/<bucket>/<name>` |
| `Releases.AppcastUrl` | app/api/releases/route.ts:134 | the appcast request starts with the storage base URL, continues with the bucket's public path, and ends with `/appcast.xml`, with nothing else in between, so it is exactly `<base>/storage/v1/object/public/<bucket>/appcast.xml` |
| `Releases.GitHubLatestUrl` | app/api/releases/route.ts:86 | the GitHub request is the API `repos/` prefix, the repository exactly as configured, then `/releases/latest` |
| `Releases.Bucket` | app/api/releases/route.ts:11 | the bucket name is never empty, and it is the configured name whenever one is set |
| `Releases.BucketDefault` | app/api/releases/route.ts:11 | an unset or empty bucket name means the `releases` bucket |
| `Releases.FindDmg` | app/api/releases/route.ts:99-101 | the index found is the first asset whose name ends in `.dmg`; nothing is found only when no asset name ends in `.dmg` |
| `Releases.StorageTier` | app/api/releases/route.ts:53-80 | storage answers exactly when SUPABASE_URL is set and the listing came back OK and non-empty |
| `Releases.GitHubTier` | app/api/releases/route.ts:83-114 | GitHub answers exactly when GITHUB_REPO is set, the latest release came back OK, and one of its assets is a `.dmg` |
| `Releases.LatestRelease` | app/api/releases/route.ts:42-120 | the response is that of the first tier, in the order direct URL, storage, GitHub, that answers, or the 404 error if none does; storage is requested exactly when there is no direct URL and SUPABASE_URL is set; GitHub is requested exactly when the two earlier tiers gave nothing and GITHUB_REPO is set; storage comes before GitHub; every request issued is the storage listing URL or the GitHub latest-release URL of the configuration, and only when that setting is set; the status is 200 or 404 |
| `Releases.Appcast` | app/api/releases/route.ts:125-157 | without SUPABASE_URL: 400 "Supabase not configured" and no request; otherwise one request for the bucket's `appcast.xml`, then the body unchanged as XML on OK, 404 "Appcast not found" on a non-OK status, 500 "Failed to fetch appcast" when the request throws |
| `Releases.Get` | app/api/releases/route.ts:14-36 | a missing or empty `type` behaves as `latest`; `latest` and `appcast` go to their handlers; any other value is 400 with the invalid-type message and no request; every status is 200, 400, 404 or 500 |
| `Releases.GetDispatch` | app/api/releases/route.ts:16-28 | no `type`, an empty `type` and `type=latest` give the same reply; `type=appcast` gives the appcast reply; an unknown `type` gives 400 |
| `Releases.AppcastUrlInBucket` | app/api/releases/route.ts:134 | the appcast is the public object `appcast.xml` of the same bucket the installers are served from |
| `Releases.DirectUrlWins` | app/api/releases/route.ts:44-50 | a configured direct URL is returned as it is, tagged `environment`, with no version field and no request issued, whatever storage and GitHub would answer |
| `Releases.StorageTierAnswers` | app/api/releases/route.ts:53-75 | without a direct URL and with SUPABASE_URL set, a non-empty listing yields `<base>/storage/v1/object/public/<bucket>/<first name>`, the version extracted from that name, tag `supabase`, and only the listing request |
| `Releases.StorageFailureFallsThrough` | app/api/releases/route.ts:65-80 | a listing that throws, is not OK or is empty does not abort the chain: the response is the one the handler gives with storage unconfigured |
| `Releases.GitHubTierAnswers` | app/api/releases/route.ts:97-109 | when the earlier tiers gave nothing, the answer is the download URL of the first `.dmg` asset, with the release tag as version and tag `github` |
| `Releases.ExhaustedIsNotFound` | app/api/releases/route.ts:116-119 | when no tier answers, the response is a 404 whose message names NEXT_PUBLIC_DMG_DOWNLOAD_URL, SUPABASE_URL and GITHUB_REPO |
| `VantaColor.ToHexString` | components/landing/VantaTrunkBackground.tsx:16 | `toString(16)` gives at least one lower-case hexadecimal digit and no leading zero |
| `VantaColor.ParseHex` | components/landing/VantaTrunkBackground.tsx:16 | the value of `k` hexadecimal digits is below 16^k |
| `VantaColor.ParseToHex` | components/landing/VantaTrunkBackground.tsx:16 | reading back the digits of `toString(16)` gives the number |
| `VantaColor.ToHexParse` | components/landing/VantaTrunkBackground.tsx:16 | every non-empty lower-case digit string without a leading zero is what `toString(16)` gives for its value |
| `VantaColor.ToHexLength` | components/landing/VantaTrunkBackground.tsx:16 | `toString(16)` has at most `k` digits exactly when the number is below 16^k |
| `VantaColor.PadStart` | components/landing/VantaTrunkBackground.tsx:16 | `padStart` gives the longer of the string and the width, keeps the string as its suffix, and fills the rest with the fill character |
| `VantaColor.ParseZerosPrefix` | components/landing/VantaTrunkBackground.tsx:16 | leading `0` padding does not change the value the digits denote |
| `VantaColor.Color2Hex` | components/landing/VantaTrunkBackground.tsx:15-17 | the string starts with `#`, has at least 7 characters, and every character after `#` is a lower-case hexadecimal digit |
| `VantaColor.Color2HexRoundTrip` | components/landing/VantaTrunkBackground.tsx:14-17 | reading the digits after `#` in base 16 gives the colour back |
| `VantaColor.Color2HexInjective` | components/landing/VantaTrunkBackground.tsx:15-17 | distinct colours give distinct strings |
| `VantaColor.Color2HexLength` | components/landing/VantaTrunkBackground.tsx:16 | below 0x1000000 the string has exactly 7 characters; from 0x1000000 on it is `#` and the unpadded digits, and the number of digits `k` is the one with 16^(k-1) <= colour < 16^k |
| `VantaColor.Color2HexDigitCount` | components/landing/VantaTrunkBackground.tsx:16 | a colour with `k` > 6 hexadecimal digits gives a string of length `k + 1` |
| `VantaColor.Color2HexUnpadded` | components/landing/VantaTrunkBackground.tsx:16 | once `toString(16)` has six digits or more, no padding is added |
| `VantaColor.Color2HexZero` | components/landing/VantaTrunkBackground.tsx:16 | 0 gives `#000000` |
| `VantaColor.Color2HexDefaultColor` | components/landing/VantaTrunkBackground.tsx:27 | the default foreground colour 0x3366bf gives `#3366bf` |
| `VantaColor.Color2HexDefaultBackground` | components/landing/VantaTrunkBackground.tsx:28 | the default background colour 0xffffff gives `#ffffff` |

## Left out

- The HTTP requests themselves are not modelled: `fetch`, headers, the Supabase `apikey`, the GitHub `Authorization` token and the `Accept` header. Each request is an input outcome (threw, non-OK, OK with a parsed body), because they are network I/O.
- The Supabase server applies the listing query (prefix `Pomodoro-`, newest first, one result). That is not modelled: the model takes the listing's first entry as the server returns it.
- Malformed payloads are not modelled separately. A listing that is not an array, an entry without `name`, a release without `assets`, or a missing `browser_download_url` or `tag_name` are either exceptions, which the model covers as a thrown outcome, or JavaScript `undefined` values. Those values are outside a model whose payload fields are strings.
- The outer `catch` of `GET` (app/api/releases/route.ts:29-35, 500 "Internal server error") is not modelled. Every awaited call in both handlers is inside the handler's own `try`, so no input of the model reaches it.
- `NextRequest`/`NextResponse` objects, JSON serialisation and `console.error` logging are not modelled. They are library wrappers; the response is the `Response` datatype.
- Reading the environment is not modelled. SUPABASE_URL, the bucket and GITHUB_REPO are read once when the module loads; the direct URL is read per request. Within one request both readings are the same `Config` value.
- VantaColor.Color2Hex: colours are natural numbers only. Negative, fractional and unsafe-integer (above 2^53) JavaScript numbers are not modelled.
- `app/install/route.ts` is not part of this model: it is a file read served with fixed headers.
- The React components, the chaos interpolation loop and the p5 sketch of `VantaTrunkBackground.tsx` are not modelled. They are UI, floating-point animation and a third-party drawing library.
