/** The access check of `OptimizelyManager`: reading the allow-list out of a
    flag variable, the fail-closed membership decision, and the two fields that
    `initialize` sets. The SDK's decision for a flag is an input (its variables
    map); the SDK itself is not modelled. */
module Manager {
  import opened Values

  /** The key under which the allow-list is stored inside an object-shaped value. */
  const UserTypesKey: string := "userTypes"

  /** The SDK key the manager builds its client with. */
  const SdkKey: string := "TfAtdtiXXWjsiiqHH5zHt"

  // ---------------------------------------------------------------------------
  // Extraction of the allow-list

  /** `map["userTypes"] as? [String]` on a `[String: Any]`: the entry must be
      present and must be an array of strings; other entries do not matter. */
  function UserTypesEntry(m: map<string, Value>): (r: Option<seq<string>>)
    ensures r.Some? <==> UserTypesKey in m && AsStringArray(m[UserTypesKey]).Some?
    ensures r.Some? ==> FromStrings(r.value) == m[UserTypesKey]
  {
    if UserTypesKey in m then
      CastInverse(m[UserTypesKey]);
      AsStringArray(m[UserTypesKey])
    else None
  }

  /** Every list that one of the accepted shapes offers for `value`, whatever
      the order in which the shapes are tried. */
  ghost function Offered(value: Value): set<seq<string>> {
    match value
    case OptimizelyJson(jsonMap, decoded) =>
      (if jsonMap.Some? && UserTypesKey in jsonMap.value && AsStringArray(jsonMap.value[UserTypesKey]).Some?
       then {AsStringArray(jsonMap.value[UserTypesKey]).value} else {})
      + (if decoded.Some? && UserTypesKey in decoded.value then {decoded.value[UserTypesKey]} else {})
    case Dictionary(entries) =>
      if UserTypesKey in entries && AsStringArray(entries[UserTypesKey]).Some?
      then {AsStringArray(entries[UserTypesKey]).value} else {}
    case Array(items) =>
      if AllStrings(items) then {AsStringArray(value).value} else {}
    case _ => {}
  }

  /** `extractUserTypes(from:)`: tries the accepted shapes in a fixed order and
      returns the first list found. It returns one of the lists the value
      offers, and `None` exactly when the value offers none. */
  function ExtractUserTypes(value: Value): (r: Option<seq<string>>)
    ensures r.Some? ==> r.value in Offered(value)
    ensures r.None? <==> Offered(value) == {}
  {
    if value.OptimizelyJson? && value.jsonMap.Some? && UserTypesEntry(value.jsonMap.value).Some? then
      UserTypesEntry(value.jsonMap.value)
    else if value.OptimizelyJson? && value.decodedStringDict.Some? && UserTypesKey in value.decodedStringDict.value then
      Some(value.decodedStringDict.value[UserTypesKey])
    else if value.Dictionary? && UserTypesEntry(value.entries).Some? then
      UserTypesEntry(value.entries)
    else if AsStringArray(value).Some? then
      AsStringArray(value)
    else
      None
  }

  /** An `OptimizelyJSON` object whose map holds a string array under
      "userTypes" yields that array, whatever its decoded text would give. */
  lemma JsonMapBeforeDecodedText(jsonMap: map<string, Value>, decoded: Option<map<string, seq<string>>>, ss: seq<string>)
    requires UserTypesKey in jsonMap && jsonMap[UserTypesKey] == FromStrings(ss)
    ensures ExtractUserTypes(OptimizelyJson(Some(jsonMap), decoded)) == Some(ss)
  {
    CastRoundTrip(ss);
  }

  /** Only when the map gives no string array is the decoded text used: it
      must have decoded as a whole into `[String: [String]]` and hold
      "userTypes". When that fails too the object yields nothing: an
      `OptimizelyJSON` object is neither a dictionary nor an array, so the
      later shapes never match it. */
  lemma DecodedTextFallback(jsonMap: Option<map<string, Value>>, decoded: Option<map<string, seq<string>>>)
    requires jsonMap.None? || UserTypesEntry(jsonMap.value).None?
    ensures decoded.Some? && UserTypesKey in decoded.value ==>
              ExtractUserTypes(OptimizelyJson(jsonMap, decoded)) == Some(decoded.value[UserTypesKey])
    ensures decoded.None? || UserTypesKey !in decoded.value ==>
              ExtractUserTypes(OptimizelyJson(jsonMap, decoded)) == None
  {
  }

  /** A dictionary yields its "userTypes" string array verbatim, and nothing
      when that entry is missing or is not an array of strings. */
  lemma DictionaryVerbatim(entries: map<string, Value>)
    ensures ExtractUserTypes(Dictionary(entries)) ==
              if UserTypesKey in entries then AsStringArray(entries[UserTypesKey]) else None
  {
  }

  /** A bare string array is returned as it is, with no case change. */
  lemma BareArrayVerbatim(ss: seq<string>)
    ensures ExtractUserTypes(FromStrings(ss)) == Some(ss)
  {
    CastRoundTrip(ss);
  }

  /** A plain string is not parsed: even text that spells a JSON object with a
      "userTypes" list yields nothing. Neither does any value of another type. */
  lemma StringsAndOthersYieldNothing(s: string)
    ensures ExtractUserTypes(Str(s)) == None
    ensures ExtractUserTypes(Other) == None
  {
  }

  // ---------------------------------------------------------------------------
  // Case-insensitive membership

  /** `categories.map { $0.lowercased() }`. */
  function LowercasedAll(categories: seq<string>): seq<string> {
    seq(|categories|, i requires 0 <= i < |categories| => Lowercased(categories[i]))
  }

  /** The reference notion: some entry equals the category when case is ignored. */
  ghost predicate ListedIgnoringCase(categories: seq<string>, category: string) {
    exists i :: 0 <= i < |categories| && Lowercased(categories[i]) == Lowercased(category)
  }

  /** The membership test of `checkUserCategoryAccess`: lower-case both sides
      and look the category up in the list. */
  function ContainsCategory(categories: seq<string>, userCategory: string): (found: bool)
    ensures found <==> ListedIgnoringCase(categories, userCategory)
  {
    var lowered := LowercasedAll(categories);
    assert forall i :: 0 <= i < |categories| ==> lowered[i] == Lowercased(categories[i]);
    Lowercased(userCategory) in lowered
  }

  /** Changing the case of the queried category does not change the answer. */
  lemma CategoryCaseIrrelevant(categories: seq<string>, userCategory: string)
    ensures ContainsCategory(categories, Lowercased(userCategory)) == ContainsCategory(categories, userCategory)
  {
  }

  /** Lower-casing the list beforehand does not change the answer. */
  lemma ListCaseIrrelevant(categories: seq<string>, userCategory: string)
    ensures ContainsCategory(LowercasedAll(categories), userCategory) == ContainsCategory(categories, userCategory)
  {
  }

  /** An empty allow-list grants nothing. */
  lemma EmptyListDenies(userCategory: string)
    ensures !ContainsCategory([], userCategory)
  {
  }

  /** Only which entries occur matters, not their order or how often they repeat. */
  lemma SameEntriesSameAnswer(a: seq<string>, b: seq<string>, userCategory: string)
    requires forall x :: x in a <==> x in b
    ensures ContainsCategory(a, userCategory) == ContainsCategory(b, userCategory)
  {
    if ContainsCategory(a, userCategory) {
      var i :| 0 <= i < |a| && Lowercased(a[i]) == Lowercased(userCategory);
      assert a[i] in b;
      var j :| 0 <= j < |b| && b[j] == a[i];
      assert Lowercased(b[j]) == Lowercased(userCategory);
    }
    if ContainsCategory(b, userCategory) {
      var j :| 0 <= j < |b| && Lowercased(b[j]) == Lowercased(userCategory);
      assert b[j] in a;
      var i :| 0 <= i < |a| && a[i] == b[j];
      assert Lowercased(a[i]) == Lowercased(userCategory);
    }
  }

  /** "Gold" and "gold" are both found in ["GOLD"]; "silver" is not. */
  lemma GoldAnyCase()
    ensures ContainsCategory(["GOLD"], "Gold")
    ensures ContainsCategory(["GOLD"], "gold")
    ensures !ContainsCategory(["GOLD"], "silver")
  {
    assert LowercasedAll(["GOLD"])[0] == Lowercased("GOLD") == "gold";
    assert Lowercased("Gold") == "gold";
    assert Lowercased("gold") == "gold";
    assert Lowercased("silver")[0] == 's';
  }

  // ---------------------------------------------------------------------------
  // The manager

  /** The SDK client; only the key it was built with is visible here. */
  datatype Client = Client(sdkKey: string)

  /** The shared manager: its optional client and its readiness flag. */
  class OptimizelyManager {
    var optimizelyClient: Option<Client>
    var isInitialized: bool
    /** How many clients `initialize` has built so far. */
    ghost var clientsCreated: nat

    /** The manager is only ever ready with a client installed, and that
        client is built with the app's SDK key. */
    ghost predicate Valid()
      reads this
    {
      (isInitialized ==> optimizelyClient.Some?) &&
      (optimizelyClient.Some? ==> optimizelyClient.value == Client(SdkKey) && clientsCreated > 0)
    }

    /** A new manager has no client and is not ready. */
    constructor ()
      ensures Valid()
      ensures optimizelyClient == None && !isInitialized && clientsCreated == 0
    {
      optimizelyClient := None;
      isInitialized := false;
      clientsCreated := 0;
    }

    /** `initialize()`, with the outcome of the client's asynchronous `start`
        given as `startSucceeded`. Once ready it does nothing; otherwise it
        installs a fresh client and becomes ready exactly when start succeeded. */
    method Initialize(startSucceeded: bool)
      requires Valid()
      modifies this
      ensures Valid()
      ensures old(isInitialized) ==>
                optimizelyClient == old(optimizelyClient) && isInitialized &&
                clientsCreated == old(clientsCreated)
      ensures !old(isInitialized) ==>
                optimizelyClient == Some(Client(SdkKey)) && isInitialized == startSucceeded &&
                clientsCreated == old(clientsCreated) + 1
    {
      if isInitialized {
        return;
      }
      optimizelyClient := Some(Client(SdkKey));
      clientsCreated := clientsCreated + 1;
      if startSucceeded {
        isInitialized := true;
      }
    }

    /** `checkUserCategoryAccess`, where `variables` is the variables map of
        the decision the client returned for the flag. Access is granted only
        when the manager is ready, the variable is present, an allow-list can
        be read from it, and the category is on that list ignoring case. */
    function CheckUserCategoryAccess(userCategory: string, jsonVariableKey: string,
                                     variables: map<string, Value>): (granted: bool)
      reads this
      ensures optimizelyClient.None? || !isInitialized ==> !granted
      ensures jsonVariableKey !in variables ==> !granted
      ensures granted <==>
                optimizelyClient.Some? && isInitialized && jsonVariableKey in variables &&
                ExtractUserTypes(variables[jsonVariableKey]).Some? &&
                ListedIgnoringCase(ExtractUserTypes(variables[jsonVariableKey]).value, userCategory)
    {
      if optimizelyClient.None? || !isInitialized then false
      else if jsonVariableKey !in variables then false
      else
        var categories := ExtractUserTypes(variables[jsonVariableKey]);
        if categories.None? then false
        else ContainsCategory(categories.value, userCategory)
    }
  }

  /** Fail closed: a value that offers no allow-list never grants access. */
  lemma MalformedValueDenies(m: OptimizelyManager, userCategory: string, jsonVariableKey: string,
                             variables: map<string, Value>)
    requires jsonVariableKey in variables && Offered(variables[jsonVariableKey]) == {}
    ensures !m.CheckUserCategoryAccess(userCategory, jsonVariableKey, variables)
  {
  }

  /** On a manager reached through its constructor and `initialize`, the
      client guard adds nothing to the readiness guard: access then depends
      only on `isInitialized`, the variable and the allow-list, and any grant
      is made through the client built with the app's SDK key. */
  lemma ReadinessAloneGuards(m: OptimizelyManager, userCategory: string, jsonVariableKey: string,
                             variables: map<string, Value>)
    requires m.Valid()
    ensures m.CheckUserCategoryAccess(userCategory, jsonVariableKey, variables) <==>
              m.isInitialized && jsonVariableKey in variables &&
              ExtractUserTypes(variables[jsonVariableKey]).Some? &&
              ContainsCategory(ExtractUserTypes(variables[jsonVariableKey]).value, userCategory)
    ensures m.CheckUserCategoryAccess(userCategory, jsonVariableKey, variables) ==>
              m.optimizelyClient == Some(Client(SdkKey))
  {
  }

  /** A session in which starting fails: nothing is granted, and each later
      call of `initialize` builds another client, since only the readiness
      flag guards it. After a successful start, a listed category is granted
      and further calls change nothing. */
  method InitializeScenario(variables: map<string, Value>)
    requires "allowed_categories" in variables
    requires variables["allowed_categories"] == Dictionary(map[UserTypesKey := FromStrings(["Premium", "gold"])])
  {
    var m := new OptimizelyManager();
    assert !m.CheckUserCategoryAccess("gold", "allowed_categories", variables);
    m.Initialize(false);
    assert !m.CheckUserCategoryAccess("gold", "allowed_categories", variables);
    m.Initialize(false);
    assert m.clientsCreated == 2;
    m.Initialize(true);
    assert m.isInitialized && m.clientsCreated == 3;
    DictionaryVerbatim(map[UserTypesKey := FromStrings(["Premium", "gold"])]);
    CastRoundTrip(["Premium", "gold"]);
    assert Lowercased(["Premium", "gold"][1]) == Lowercased("gold");
    assert m.CheckUserCategoryAccess("gold", "allowed_categories", variables);
    m.Initialize(false);
    assert m.isInitialized && m.clientsCreated == 3;
  }
}
