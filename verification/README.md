# SignalForge site logic, modelled in Dafny

SignalForge.ro is a bilingual (Romanian/English) marketing site. Its logic is
small: a translation resolver and the contact-form endpoint. This project
models both.

- The translation resolver (`src/utils/i18n.ts` and its older untyped copy
  `src/utils/i18n.js`) does five things. It reads the language from the URL
  pathname. It builds a page's translation object from the language's
  `common` bundle and the page bundle. It resolves dot-separated key paths and
  returns the key path itself when a path is missing. It builds the Romanian
  and English variants of a path. It builds the canonical page URL.
- The contact endpoint (`src/pages/api/contact.ts`) checks the required
  fields and the email shape. It composes the notification mail and picks the
  HTTP response.

Files, one module each:

- `options.dfy` (`Options`): `Option`, for a JSON property that may be absent.
- `text.dfy` (`Text`): the JavaScript string operations the code uses.
  These are `startsWith`, the anchored `replace(/^\/en/, '')`, `split` and
  the global `replace(/\n/g, '<br>')`. `Join` is not called by the site; it
  is a reference definition. Splitting is proved inverse to it, and the
  global replace is proved equal to a split followed by a join.
- `locale.dfy` (`Locale`): `i18n.ts`. A translation value is a closed tree,
  `Tree = Leaf(string) | Node(map<string, Tree>)`. The table of bundles is
  `Translations(ro, en)`, one map per language from section name to bundle.
- `locale_js.dfy` (`LocaleJs`): `i18n.js`. Each function is related to its
  typed counterpart. Its `t` is the source's loop, proved equal to the
  recursive lookup.
- `email.dfy` (`EmailSyntax`): the pattern `^[^\s@]+@[^\s@]+\.[^\s@]+$`. The
  regular expression's meaning is stated as an existential over the positions
  of `@` and `.`. A direct rule is proved to accept exactly the same strings.
- `contact.dfy` (`ContactRelay`): the handler as a pure function. Its inputs
  are the mail configuration, the parsed body (`None` when parsing threw) and
  the transport's answer (`Delivered` or `Failed(detail)`). It returns the
  response and the mail handed to the transport, if any.

Three behaviours of the code worth knowing:

- `getAlternatePaths(_, "/")` gives `en = "/en/"`, not `"/en"`. `basePath` is
  `"/"` there, and only an empty `basePath` is replaced.
- A page name with no bundle does not fail. `...undefined` spreads nothing, so
  the result holds only `common`.
- Common and page keys are not assumed disjoint. The page bundle's keys are
  spread last and win, including a page key named `common`.

## Model

| member | source | states |
|---|---|---|
| Locale.GetLangFromParams | src/utils/i18n.ts:60-62 | the language is `en` exactly when the pathname starts with "/en", and `ro` otherwise |
| Locale.LangDetectionExamples | src/utils/i18n.ts:60-62 | the test has no segment boundary ("/english" is English) and is case-sensitive ("/EN/..." is Romanian); "/" and "" are Romanian |
| Locale.ParseLang | src/utils/i18n.ts:40-55 | the table knows exactly the codes "ro" and "en" |
| Locale.LangData | src/utils/i18n.ts:71 | "en" selects the English bundles; every other code, known or not, selects the Romanian ones |
| Locale.Merge | src/utils/i18n.ts:73-76 | the result's keys are `common` plus the page bundle's keys; every page key keeps its value; `common` is the common bundle unless the page bundle has its own `common` key |
| Locale.LoadTranslations | src/utils/i18n.ts:67-77 | the same key and value facts, for the bundles of `lang` when it is "en" and the Romanian bundles otherwise |
| Locale.LoadTranslationsFallback | src/utils/i18n.ts:71 | any code other than "ro" and "en" loads exactly what "ro" loads |
| Locale.Lookup | src/utils/i18n.ts:86-93 | an empty path gives the starting value; a non-empty path fails on a string, and succeeds only if the first segment is a key of the starting object; a one-segment path naming a key of the starting object yields that key's value |
| Locale.LookupAppend | src/utils/i18n.ts:86-93 | walking a concatenated path is walking the first part and then the second from where it stopped; a failure is final |
| Locale.LookupStep | src/utils/i18n.ts:87-88 | one step of the walk succeeds exactly when the value reached is an object holding the segment, and yields that child |
| Locale.LookupSomeIffPathPresent | src/utils/i18n.ts:86-93 | the walk reaches the end exactly when every segment is present in the value reached by the segments before it |
| Locale.T | src/utils/i18n.ts:82-96 | `t` returns either the key path itself or the value found at the end of the split path |
| Locale.TMissingSegment | src/utils/i18n.ts:86-92 | if some segment is absent, or the value reached before it is a string, `t` returns the key path unchanged |
| Locale.LookupFullPath | src/utils/i18n.ts:86-93 | a walk over a path whose every segment is present ends at the last segment's value inside the value the other segments reach |
| Locale.LookupStopsAtMissing | src/utils/i18n.ts:86-92 | a walk over a path with a missing segment fails, wherever that segment is |
| Locale.TFullPath | src/utils/i18n.ts:83-95 | if every segment is present, `t` returns the value the last segment names inside the value the others reach, whether a leaf string or a whole sub-object |
| Locale.TAbsentPath | src/utils/i18n.ts:86-92 | if not every segment is present, `t` returns the key path |
| Locale.TEmptyKeyPath | src/utils/i18n.ts:83 | the empty key path splits into one empty segment, so `t` returns "" unless the object has a "" key |
| Locale.LookupTopLevel | src/utils/i18n.ts:83-88 | a path "key.rest" with a dot-free key walks into the top-level value of that key and continues with "rest" |
| Locale.CommonPathsResolve | src/utils/i18n.ts:73-76 | in a loaded translation object, "common.x" resolves `x` in the language's common bundle when the page bundle has no `common` key |
| Locale.PagePathsResolve | src/utils/i18n.ts:73-76 | in a loaded translation object, "key.x" resolves `x` in the page bundle's value for `key` |
| Locale.GetAlternatePaths | src/utils/i18n.ts:101-108 | the English path is the current path when it already starts with "/en", and "/en" before it otherwise; the Romanian path is never empty, and the English path is "/en" before it, or it is "/" for an English path of "/en" |
| Locale.AlternatePathsIgnoreLang | src/utils/i18n.ts:101 | the result does not depend on the current language |
| Locale.AlternatePathsFixpoint | src/utils/i18n.ts:102-106 | feeding the returned English path back in reproduces the same pair |
| Locale.AlternatePathsExamples | src/utils/i18n.ts:101-108 | "/en/services" and "/services" give ("/services", "/en/services"); "/" gives ("/", "/en/"); "/en" and "" give ("/", "/en"); "/english" gives ("glish", "/english") |
| Locale.CleanPath | src/utils/i18n.ts:115 | the cleaned path starts with "/", ends with the given path, is the path itself when it already starts with "/", and adds at most one character |
| Locale.GetPageUrl | src/utils/i18n.ts:113-122 | the URL starts with "https://signalforge.ro/" and ends with the given path; English URLs start with "https://signalforge.ro/en/"; a Romanian URL is the domain before the cleaned path |
| Locale.EnglishUrlInsertsSegment | src/utils/i18n.ts:117-121 | the English URL of a path is the Romanian URL of "/en" before the cleaned path: the language only inserts "/en" |
| Locale.PageUrlLanguage | src/utils/i18n.ts:113-122 | detecting the language from a canonical URL's pathname gives back its language, except a Romanian URL whose cleaned path starts with "/en", which reads as English |
| Locale.PageUrlMatchesAlternatePaths | src/utils/i18n.ts:113-122 | for a rooted path outside "/en", the two canonical URLs are the domain before the Romanian and English alternate paths |
| Text.StripPrefix | src/utils/i18n.ts:102 | when the string starts with the prefix, the prefix followed by the result is the string; otherwise the string is unchanged |
| Text.Split | src/utils/i18n.ts:83 | `split` yields one part more than there are separators and always at least one; no part holds the separator; joining the parts with it gives the string back |
| Text.SplitOfJoin | src/utils/i18n.ts:83 | splitting undoes joining, for a non-empty list of parts free of the separator |
| Text.StartsWith | src/utils/i18n.ts:61 | `startsWith` holds exactly when the prefix is no longer than the string and agrees with it position by position |
| Text.ReplaceChar | src/pages/api/contact.ts:55 | a message without a newline is left as it is, and replacing by a non-empty string never shortens the message |
| Text.ReplaceCharIsSplitJoin | src/pages/api/contact.ts:55 | the global newline replacement equals splitting the message at its newlines and joining the pieces with "<br>" |
| Text.ReplaceCharRemoves | src/pages/api/contact.ts:55 | no newline is left in the HTML message |
| Text.ReplaceCharLength | src/pages/api/contact.ts:55 | the HTML message is three characters longer per newline |
| LocaleJs.GetLangFromParams | src/utils/i18n.js:41-43 | the untyped copy returns the string "en" or "ro", the code of the language the typed copy detects |
| LocaleJs.LoadTranslations | src/utils/i18n.js:51-58 | for every page name, the keys are `common` plus the page bundle's keys, every page key keeps its value, and `common` is the common bundle unless the page bundle has its own `common` key; a page name with no bundle leaves only `common`; for a page name the typed copy knows, the result equals the typed copy's |
| LocaleJs.UnknownLanguageFallsBack | src/utils/i18n.js:52 | any code other than "ro" and "en", such as "fr", loads the Romanian bundles |
| LocaleJs.T | src/utils/i18n.js:66-80 | the loop returns the key path at the first missing segment or non-object value, and otherwise the value reached; it agrees with the typed `t` on every input |
| LocaleJs.GetAlternatePaths | src/utils/i18n.js:88-95 | for any language string, the result equals the typed copy's for every language |
| EmailSyntax.ValidEmailIffPattern | src/pages/api/contact.ts:20-21 | a string passes exactly when it has no whitespace, exactly one "@", a non-empty part before it, and after it a "." with at least one character on each side |
| EmailSyntax.ValidEmailMatches | src/pages/api/contact.ts:20 | every string the rule accepts matches the regular expression |
| EmailSyntax.MatchIsValid | src/pages/api/contact.ts:20 | every string the regular expression matches passes the rule |
| EmailSyntax.AcceptsPlainAddress | src/pages/api/contact.ts:20 | "ana@example.ro" is accepted |
| EmailSyntax.RejectsWithoutAt | src/pages/api/contact.ts:20 | "bad" is rejected |
| EmailSyntax.RejectsTwoAts | src/pages/api/contact.ts:20 | a second "@" is rejected |
| EmailSyntax.RejectsEmptyLocalPart | src/pages/api/contact.ts:20 | an empty part before "@" is rejected |
| EmailSyntax.RejectsDotRightAfterAt | src/pages/api/contact.ts:20 | a "." directly after "@" is rejected |
| EmailSyntax.RejectsSpace | src/pages/api/contact.ts:20 | whitespace anywhere is rejected |
| ContactRelay.ComposeMail | src/pages/api/contact.ts:43-67 | sender and recipient come from the configuration; reply-to is the submitted email; the subject is "New Contact Form Submission from " and the name; each body starts with its heading and the name, phone and email lines; the text body ends with the message as typed; the HTML body ends with the message split at newlines and joined with "<br>", so the rewritten message has no newline left |
| ContactRelay.MailCarriesContactDetails | src/pages/api/contact.ts:48-62 | both bodies carry the name, the phone number and the email, each right after its label |
| ContactRelay.FalsyCompanyIgnored | src/pages/api/contact.ts:53-63 | an absent or empty company gives exactly the mail of a submission with no company, so no company line appears |
| ContactRelay.CompanyLineInserted | src/pages/api/contact.ts:48-66 | a non-empty company inserts its line into the HTML body and into the text body of the mail without a company, right after the email line, and changes nothing else |
| ContactRelay.Handle | src/pages/api/contact.ts:6-83 | a body that fails to parse gives 500; a missing or empty name, phone, email or message gives 400 "Missing required fields", and this check comes first; a complete submission whose email does not match the pattern gives 400 "Invalid email format"; the transport is called exactly for complete submissions with a matching email, with reply-to and subject from them; delivery gives 200 "Email sent successfully", failure gives 500; every response is JSON |
| ContactRelay.FailureDetailHidden | src/pages/api/contact.ts:76-81 | the response to a failed delivery is the same whatever the transport's error was, and it is never 200 |
| ContactRelay.BadEmailRefused | src/pages/api/contact.ts:19-26 | name "A", phone "1", email "bad", message "hi" gives 400 "Invalid email format" and no mail |
| ContactRelay.MissingFieldWinsOverBadEmail | src/pages/api/contact.ts:11-17 | a missing or empty message gives 400 "Missing required fields" even with a malformed email, and a present company does not help |
| ContactRelay.ValidSubmissionMailed | src/pages/api/contact.ts:42-75 | a complete submission whose email passes is answered according to the delivery, and the composed mail is handed over |

## Left out

- SMTP transport: `nodemailer.createTransport` and `sendMail` are a network call into an unseen library. Their result is the `Delivery` parameter, and a failure to create the transport counts as `Failed`.
- Environment variables: `import.meta.env.*` and the `parseInt` of the port. `from` and `to` are the opaque `MailConfig`; host, port, credentials and TLS settings affect only the transport.
- Body parsing: `request.json()` belongs to the framework. Its failure, and a body that parses to `null` so that destructuring throws, is the `None` request. Fields are strings or absent; JavaScript truthiness of non-string JSON values (`0`, `false`, `null`, numbers) is not modelled, nor the exception `message.replace` would raise on a non-string message.
- Logging: `console.warn` in `t` and `console.error` in the handler are side effects only.
- Translation content: the JSON locale files are the abstract `Translations` table. Only strings and objects appear in it; JSON arrays, numbers, booleans and `null` are not modelled.
- JavaScript object quirks: `key in value` and `translations[lang]` also see inherited properties (for example `"constructor"`). Only own keys are modelled.
- TypeScript types: `TranslationsResult<T>` and the `Language` annotation on `lang` are compile-time only. The language is a string at run time, so the `|| translations['ro']` fallback is modelled for both copies.
- Locale.LoadTranslations: requires the language's `common` bundle to exist. Without it the source stores `common: undefined`, a value outside `Tree`; every shipped locale has one.
- LocaleJs.LoadTranslations: requires the `common` bundles for the same reason.
- The `Astro` object: only its `url.pathname` string is modelled.
- Strings are sequences of Unicode scalar values, while JavaScript strings are UTF-16 code units. Without the `u` flag, each `[^\s@]` in the email pattern matches one code unit, so a character outside the Basic Multilingual Plane is matched as its two surrogate halves. Neither half is whitespace or `@`, so the pattern accepts the same strings either way. The path tests compare only ASCII prefixes, which mean the same in both views.
- Locale.GetPageUrl: takes the typed `Lang` on purpose, because `getPageUrl` exists only in the typed file. At run time any code other than "en" would give the Romanian URL, since the code compares with "en" only.
- Responses: the JSON body is the `Body` datatype, not its serialized text. The only header the handler sets is modelled as `contentType`.
- astro.config.mjs: declarative framework configuration, with no logic.
