# Optimizely demo app: the category access check

The app asks a feature-flag SDK for a decision and shows whether the user's
category (such as "premium", "gold" or "silver") is on an allow-list carried
by one of the flag's variables. This project models the one piece of logic in
the app, `OptimizelyManager`. It has three parts:

- `extractUserTypes(from:)` reads the allow-list out of a dynamically typed
  variable value. It tries four shapes in a fixed order:
  1. an `OptimizelyJSON` object's map;
  2. that object's text, decoded as `[String: [String]]`;
  3. a plain dictionary's `userTypes` entry;
  4. a bare string array.
- `checkUserCategoryAccess` makes the fail-closed decision. It denies access when the manager has no client, is not
  initialised, the variable is missing, or no allow-list can be read.
  Otherwise it lower-cases both sides and tests membership.
- `initialize` sets the client and the `isInitialized` flag.

Files:

- `values.dfy` (module `Values`) holds the `Value` datatype for a variable of static type `Any`. It also holds the
  `as? [String]` cast and ASCII lower-casing.
- `optimizely_manager.dfy` (module `Manager`) holds extraction, membership and the `OptimizelyManager` class. The class has
  the fields `optimizelyClient` and `isInitialized`, plus a ghost count of the
  clients built.

The SDK is foreign code, so its results are inputs:

- The decision's variables map is a parameter of `CheckUserCategoryAccess`.
- The outcome of the client's `start` is a parameter of `Initialize`.
- The outcomes of `OptimizelyJSON.toMap()` and of decoding `OptimizelyJSON.toString()` are fields of
  the `OptimizelyJson` value.

`ExtractUserTypes` is specified against `Offered`, the set of every list that
any accepted shape offers. The result is always one of those lists, and it is
`None` exactly when there are none. Lemmas state the order in which the
shapes are tried.

Two behaviours of the code worth noting:

- Only the text of an `OptimizelyJSON` object is decoded. A variable whose value is a plain `String` holding JSON
  yields no list, so access is denied (`StringsAndOthersYieldNothing`).
- `initialize` is guarded only by `isInitialized`. Each call made before a start has succeeded builds a new client and
  starts again. Nothing coalesces them (`Initialize`, `InitializeScenario`).

## Model

| member | source | states |
|---|---|---|
| `Values.AsStringArray` | Optimizely-Demo-App/OptimizelyManager.swift:92-93 | the cast to `[String]` succeeds exactly on an array whose items are all strings (empty included) and returns them in order |
| `Values.CastRoundTrip` | Optimizely-Demo-App/OptimizelyManager.swift:92-93 | a string array stored as `Any` casts back to itself unchanged |
| `Values.CastInverse` | Optimizely-Demo-App/OptimizelyManager.swift:92-93 | a value the cast accepts is exactly the array of strings the cast returns |
| `Values.LowerChar` | Optimizely-Demo-App/OptimizelyManager.swift:62 | upper-case ASCII letters map to their lower-case letter; every other character is kept; no result is an upper-case letter |
| `Values.Lowercased` | Optimizely-Demo-App/OptimizelyManager.swift:62-63 | lower-casing keeps the length and lower-cases each character in place |
| `Values.LowercasedIdempotent` | Optimizely-Demo-App/OptimizelyManager.swift:62-63 | lower-casing twice equals lower-casing once |
| `Manager.UserTypesEntry` | Optimizely-Demo-App/OptimizelyManager.swift:86-87 | a map yields a list iff its "userTypes" entry exists and is a string array; other entries play no part; the list is that entry's contents |
| `Manager.ExtractUserTypes` | Optimizely-Demo-App/OptimizelyManager.swift:69-97 | the extracted list is one the value offers under an accepted shape; the result is `nil` exactly when the value offers none |
| `Manager.JsonMapBeforeDecodedText` | Optimizely-Demo-App/OptimizelyManager.swift:71-75 | an `OptimizelyJSON` whose map holds a "userTypes" string array yields that array, whatever its decoded text holds |
| `Manager.DecodedTextFallback` | Optimizely-Demo-App/OptimizelyManager.swift:76-83 | when the map gives nothing, the list is the "userTypes" entry of the text decoded as a whole into `[String: [String]]`; when that decode fails or lacks "userTypes" the object yields `nil` |
| `Manager.DictionaryVerbatim` | Optimizely-Demo-App/OptimizelyManager.swift:85-89 | a dictionary yields its "userTypes" string array verbatim, and `nil` if that entry is missing or not a string array |
| `Manager.BareArrayVerbatim` | Optimizely-Demo-App/OptimizelyManager.swift:91-94 | a bare string array is returned unchanged, case included |
| `Manager.StringsAndOthersYieldNothing` | Optimizely-Demo-App/OptimizelyManager.swift:96 | a plain string (even JSON text) and a value of any other type yield `nil` |
| `Manager.ContainsCategory` | Optimizely-Demo-App/OptimizelyManager.swift:62-66 | the membership test is true iff some entry equals the category once both are lower-cased |
| `Manager.CategoryCaseIrrelevant` | Optimizely-Demo-App/OptimizelyManager.swift:62 | lower-casing the queried category first does not change the answer |
| `Manager.ListCaseIrrelevant` | Optimizely-Demo-App/OptimizelyManager.swift:63 | lower-casing the allow-list first does not change the answer |
| `Manager.EmptyListDenies` | Optimizely-Demo-App/OptimizelyManager.swift:66 | an empty allow-list grants no category |
| `Manager.SameEntriesSameAnswer` | Optimizely-Demo-App/OptimizelyManager.swift:66 | two lists with the same entries give the same answer, whatever their order or repetitions |
| `Manager.GoldAnyCase` | Optimizely-Demo-App/OptimizelyManager.swift:62-66 | "Gold" and "gold" are both found in ["GOLD"]; "silver" is not |
| `Manager.OptimizelyManager.constructor` | Optimizely-Demo-App/OptimizelyManager.swift:15-21 | a new manager has no client and is not initialised |
| `Manager.OptimizelyManager.Initialize` | Optimizely-Demo-App/OptimizelyManager.swift:23-44 | once initialised, nothing changes; otherwise a client for the SDK key is installed and the manager is initialised exactly when start succeeded; being initialised always implies a client |
| `Manager.OptimizelyManager.CheckUserCategoryAccess` | Optimizely-Demo-App/OptimizelyManager.swift:46-67 | access is denied without a client or before initialisation and when the variable is missing; otherwise it is granted iff a list is extracted and lists the category ignoring case |
| `Manager.MalformedValueDenies` | Optimizely-Demo-App/OptimizelyManager.swift:57-60 | a variable value matching no accepted shape never grants access |
| `Manager.ReadinessAloneGuards` | Optimizely-Demo-App/OptimizelyManager.swift:24-47 | on a manager kept valid by its constructor and `initialize`, access depends only on readiness, the variable and the allow-list, and a grant implies the client built with the app's SDK key |

## Left out

- The Optimizely SDK is not modelled: `OptimizelyClient(sdkKey:)`, `start`, `createUserContext`, `decide`,
  `variables.toMap()`, `OptimizelyJSON.toMap()` and `toString()`. Their outcomes are parameters or datatype fields. As a
  result, `flagKey` does not appear: the caller passes in the variables map of the decision for that flag.
- JSON text, UTF-8 conversion and `JSONDecoder` are not modelled. The decode outcome is carried as an `Option` in the `OptimizelyJson` value.
- The random `UUID` user id is left out. The id goes into `createUserContext` and `decide`, whose bucketing is foreign
  code and may depend on it. The model stays sound because the decision's variables map is an arbitrary parameter.
- `print` logging is left out because it is output only.
- The async continuation, `@MainActor` and `Task` wrappers are left out. `Initialize` is one sequential step, so two
  concurrent calls that both pass the `isInitialized` guard are not modelled.
- Values.LowerChar: maps only the ASCII letters A-Z and keeps every other character, so 'É' stays 'É' where Swift's
  `lowercased()` gives 'é'. Full Unicode case mapping is library behaviour.
- Values.Lowercased: covers ASCII letters only and always keeps the length, because it is built on `LowerChar`; Swift's
  Unicode `lowercased()` can also change a string's length.
- Manager.ContainsCategory: compares strings as character sequences. Swift's `String ==`, used by `contains`, treats
  canonically equivalent strings as equal. So an allow-list holding "café" with a precomposed 'é' grants the category
  "cafe" followed by a combining acute accent in Swift, but not in the model. Unicode normalisation is library behaviour.
- Manager.OptimizelyManager.CheckUserCategoryAccess: looks `jsonVariableKey` up by exact character sequence. Swift's
  dictionary lookup uses the same canonical-equivalence `==`, so a key spelled in another normalisation form is
  found in Swift but not in the model.
- The SwiftUI screens and the app entry point are left out: `ContentView.swift` and `Optimizely_Demo_AppApp.swift` are UI and start-up.
