# Subscribe flow of the TCGHit mailing-list API

This project models the one piece of decision logic in the TCGHit API: the
`POST /api/subscribers` action, `SubscribersController.Subscribe`. A request
carries an email, a consent flag, an optional source and an optional
`website` honeypot field. The action picks one of five outcomes against the
subscriber table:

- **honeypot** — `website` is non-empty: 200 with the ordinary success body, nothing written;
- **consent missing** — 400 with an error body, nothing written;
- **conflict** — an active record already exists for the normalised email: 409, nothing written;
- **reactivate** — an inactive record exists: it is switched back on, 201 "Welcome back";
- **create** — no record exists: one is added, 201.

The store is an immutable `map<string, Subscriber>` keyed by the normalised
email (`email.Trim().ToLowerInvariant()`). A map holds at most one record
per key, which stands in for the table's unique index on `Email`, compared
by exact string equality. `Subscribe` is a pure function of the store, the request,
the current time and the client address; it returns the new store, the
status code and the JSON body. The client address comes from
`GetClientIpAddress`, modelled on its own over the first `X-Forwarded-For`
header value and the connection's remote address.

Modules, one per source concern:

- `Wrappers` (`wrappers.dfy`) — `Option`, for the source's nullable values.
- `Text` (`text.dfy`) — .NET `Trim`, `ToLowerInvariant`, `IsNullOrEmpty`, and email normalisation.
- `SubscribeResponses` (`subscribe_response.dfy`) — the response record and its three factories.
- `ClientIp` (`client_ip.dfy`) — `GetClientIpAddress`.
- `Subscribers` (`subscriber.dfy`) — the subscriber entity and the store.
- `SubscribersController` (`subscribers_controller.dfy`) — `Subscribe` and the properties relating calls to it.

Three points about the code that the model follows:

- A caught bot gets `Ok`, status 200 (TCGHit.Api/Controllers/SubscribersController.cs:40). Its body is the one a new subscriber gets with status 201 (line 93).
- `SaveChangesAsync` (TCGHit.Api/Controllers/SubscribersController.cs:89) is not guarded. A unique-index violation from a concurrent insert of the same new email therefore becomes a server error, not a 409.
- The entity names its consent flag `HasConsent` (TCGHit.Api/Models/Subscriber.cs:12), but the controller assigns `ConsentGiven` (TCGHit.Api/Controllers/SubscribersController.cs:66, 81). The model has one `consent` field.

## Model

| member | source | states |
|---|---|---|
| SubscribersController.Subscribe | TCGHit.Api/Controllers/SubscribersController.cs:33-94 | Each of the five outcomes happens exactly when its condition holds: 200 iff honeypot filled; 400 iff no honeypot and no consent; 409 iff it reaches the store and an active record exists under the normalised email; 201 iff it reaches the store and no active record exists. Each outcome has its fixed body. Only a 201 changes the store, and only under the normalised email. No key is removed and every other record is unchanged. After a 201 that key holds an active, consenting record stamped with `now` and the address, with the given source or "landing-page". A new record's email is the normalised key. |
| SubscribersController.SubscribePreservesWellFormed | TCGHit.Api/Controllers/SubscribersController.cs:50-86 | If every record sits under its own normalised email before the call, that still holds after it. |
| SubscribersController.StoreChangesIffCreated | TCGHit.Api/Controllers/SubscribersController.cs:56-93 | The store changes if and only if the status is 201. A 201 for an unknown email adds exactly one record. A reactivation adds none. |
| SubscribersController.RepeatAfterCreatedConflicts | TCGHit.Api/Controllers/SubscribersController.cs:56-62 | After a 201, a request for the same normalised email that passes the honeypot and consent checks gets 409 with `AlreadySubscribedResponse()`. The store is unchanged, whatever the time and address. |
| SubscribersController.OnlyNormalFormMatters | TCGHit.Api/Controllers/SubscribersController.cs:50-54 | Two requests whose emails have the same normal form get identical replies and leave identical stores. |
| SubscribersController.CaseAndWhiteSpaceInsensitive | TCGHit.Api/Controllers/SubscribersController.cs:50 | Emails that differ only in ASCII letter case, or in white space around them, reach the same record and get the same reply. |
| SubscribersController.HoneypotBodyMatchesNewSubscriber | TCGHit.Api/Controllers/SubscribersController.cs:36-93 | A caught bot gets the same body as a genuine new subscriber. The status codes differ: 200 for the bot, 201 for the subscriber. |
| Subscribers.EmailIsUnique | TCGHit.Api/Data/AppDbContext.cs:26-27 | In a well-formed store, two records have the same email only if they are the same record. |
| Text.TrimStart | TCGHit.Api/Controllers/SubscribersController.cs:50 | The result is no longer than the input and does not start with white space. |
| Text.TrimEnd | TCGHit.Api/Controllers/SubscribersController.cs:50 | The result is no longer than the input, does not end with white space, and keeps the input's first character. |
| Text.TrimStartSplit | TCGHit.Api/Controllers/SubscribersController.cs:50 | The input is some white space followed by the result of `TrimStart`. |
| Text.TrimEndSplit | TCGHit.Api/Controllers/SubscribersController.cs:50 | The input is the result of `TrimEnd` followed by some white space. |
| Text.Trim | TCGHit.Api/Controllers/SubscribersController.cs:50 | Neither end of the result is white space, and the result is no longer than the input. |
| Text.TrimSplit | TCGHit.Api/Controllers/SubscribersController.cs:50 | The input is white space, then the trimmed string, then white space. |
| Text.TrimUnique | TCGHit.Api/Controllers/SubscribersController.cs:50 | This is the converse of `TrimSplit`. Any split of a string into white space, a middle with no white space at either end, and white space has `Trim` of the string as its middle. |
| Text.ToLowerInvariant | TCGHit.Api/Controllers/SubscribersController.cs:50 | The result has the same length as the input. Each character is the input's character lowercased (ASCII A-Z only), so the result has no upper-case ASCII letter. |
| Text.TrimToLowerCommute | TCGHit.Api/Controllers/SubscribersController.cs:50 | Trimming then lowercasing gives the same string as lowercasing then trimming. |
| Text.NormalizeEmail | TCGHit.Api/Controllers/SubscribersController.cs:50 | The normalised email is trimmed and has no upper-case ASCII letter. |
| Text.NormalizedIffFixedPoint | TCGHit.Api/Controllers/SubscribersController.cs:50 | A string is in normal form if and only if normalising it leaves it unchanged. |
| Text.NormalizeEmailIdempotent | TCGHit.Api/Controllers/SubscribersController.cs:50 | Normalising twice is the same as normalising once. |
| Text.NormalizeIgnoresSurroundingWhiteSpace | TCGHit.Api/Controllers/SubscribersController.cs:50 | White space added before or after an email does not change its normal form. |
| Text.NormalizeIgnoresCase | TCGHit.Api/Controllers/SubscribersController.cs:50 | Emails equal after lowercasing have the same normal form. |
| ClientIp.FirstSegment | TCGHit.Api/Controllers/SubscribersController.cs:103 | `Split(',')[0]`: the result is a comma-free prefix of the header. It is the whole header, or it is followed by a comma. |
| ClientIp.FirstSegmentOfList | TCGHit.Api/Controllers/SubscribersController.cs:103 | For `first + "," + rest` with a comma-free `first`, the first segment is exactly `first`. |
| ClientIp.GetClientIpAddress | TCGHit.Api/Controllers/SubscribersController.cs:96-107 | A null or empty forwarded header gives the remote address unchanged, possibly null. Otherwise the result is non-null, contains no comma and is trimmed. For a header with no comma it is the trimmed header. |
| ClientIp.ClientIpIsFirstHop | TCGHit.Api/Controllers/SubscribersController.cs:99-104 | For a forwarded chain, the address is the trimmed first hop. Later hops do not matter. |
| Text.IsWhiteSpace | TCGHit.Api/Controllers/SubscribersController.cs:50 | `Char.IsWhiteSpace`, the set `Trim` strips, is exactly these 25 characters: U+0009-U+000D, U+0020, U+0085, U+00A0, U+1680, U+2000-U+200A, U+2028, U+2029, U+202F, U+205F and U+3000. |
| Text.IsNullOrEmpty | TCGHit.Api/Controllers/SubscribersController.cs:36 | `string.IsNullOrEmpty` holds exactly for null and for the empty string. A string of white space is neither. |
| Wrappers.Option.GetOr | TCGHit.Api/Controllers/SubscribersController.cs:69 | The `??` operator: the held value when there is one, otherwise the default. |
| SubscribeResponses.SuccessResponse | TCGHit.Api/Models/SubscribeResponse.cs:23-24 | `success` is true, the message is the one given ("Successfully subscribed!" by default) and `alreadySubscribed` is null. |
| SubscribeResponses.AlreadySubscribedResponse | TCGHit.Api/Models/SubscribeResponse.cs:26-27 | `success` is false, the message is "This email is already subscribed." and `alreadySubscribed` is true. |
| SubscribeResponses.ErrorResponse | TCGHit.Api/Models/SubscribeResponse.cs:29-30 | `success` is false, the message is exactly the one given and `alreadySubscribed` is null. |
| SubscribeResponses.FactoriesAreDistinguishable | TCGHit.Api/Models/SubscribeResponse.cs:6-30 | No two factories produce the same body, whatever messages they get. Which factory built a body can be read back from the body. Equal success or error bodies have equal messages. |

## Left out

- Rate limiting (TCGHit.Api/Program.cs:63-103) is the framework's fixed-window limiter configured with constants. It is wall-clock library behaviour, not logic of this repository, and it runs before the action.
- The rest of Program.cs is not modelled: dependency injection, logging sinks, Swagger, CORS, health checks and the HTTP pipeline.
- EF Core persistence, `async`/`await` and `SaveChangesAsync` are replaced by a pure update of the map.
- The surrogate `Id` the database assigns on insert is not modelled. The map key identifies a record.
- `DateTime.UtcNow` and the HTTP context are inputs. `now` is given to `Subscribe`. The forwarded header and the remote address are given to `GetClientIpAddress`. `Subscribe` receives the address that function resolved.
- Concurrent requests are not modelled. The code does not catch the unique-index violation a concurrent insert of the same new email raises at `SaveChangesAsync`. Such a request fails with a server error, not with 409.
- Logging calls have no effect on the outcome or the store, so they are not modelled.
- The request validation attributes (`[Required]`, `[EmailAddress]`, `[MaxLength]`) run in the framework before the action. The model accepts any email string.
- The schema's length limits (email 254, source 50, address 45; TCGHit.Api/Data/AppDbContext.cs:22-33) are not modelled. The action never checks them. The database is SQL Server (TCGHit.Api/Program.cs:25), and EF Core does not truncate. So a write whose value exceeds a column limit makes `SaveChangesAsync` (TCGHit.Api/Controllers/SubscribersController.cs:71, 89) throw. The action then answers 500 and commits nothing, where `Subscribe` answers 201 and writes the record. Any client can reach this path by sending a first `X-Forwarded-For` value that trims to more than 45 characters.
- The lookup `s.Email == normalizedEmail` (TCGHit.Api/Controllers/SubscribersController.cs:53-54) and the unique index (TCGHit.Api/Data/AppDbContext.cs:26-27) compare under the database collation. SQL Server's default collation ignores case and character width. The map compares keys by exact string equality. Stored emails that are not in normal form, which the database collation could still match, are therefore not found by the model.
- Text.ToLowerInvariant: lowercases ASCII letters only. .NET's invariant culture also lowercases other letters, so two emails differing only in the case of a non-ASCII letter are not shown to meet.
- The property default `IsActive = true` on the entity is not modelled separately. Both paths that write a record set `isActive` explicitly.
