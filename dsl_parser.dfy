/**
 * The DSL front end: `parse_resources_and_accounts`, `parse_resource_definitions`
 * and `parse_account_definitions`. Each parser is a method with the source's loops,
 * proved equal to a specification function; the lemmas state what those
 * functions guarantee.
 */
module DslParser {
  import opened Wrappers
  import opened PyStr
  import opened OrderedDict
  import opened Patterns

  /** One value of the resource dict: `{'permissions': ..., 'uri': ..., 'table': ...}`. */
  datatype Resource = Resource(permissions: map<string, string>, uri: string, table: string)

  /** One element of the account list. */
  datatype Account = Account(name: string, roles: seq<string>, password: string, email: string)

  /**
   * The `ValueError` raised by `key, value = perm.strip().split('=')` when the split
   * does not give exactly two parts: the stripped entry and the number of parts.
   */
  datatype ParseError = MalformedPermission(entry: string, parts: nat)

  // ---------------------------------------------------------------- specification

  /** One permission entry: unpack `perm.strip().split('=')` and strip both halves. */
  function PermissionPair(perm: string): (r: Result<(string, string), ParseError>)
    ensures r.Success? <==> Count(perm, '=') == 1
    ensures r.Failure? ==> r.error == MalformedPermission(Strip(perm), Count(perm, '=') + 1)
  {
    var parts := Split(Strip(perm), '=');
    SplitLength(Strip(perm), '=');
    StripKeepsCount(perm, '=');
    if |parts| != 2 then Failure(MalformedPermission(Strip(perm), |parts|))
    else Success((Strip(parts[0]), Strip(parts[1])))
  }

  /** Keys and values are the stripped text on either side of the entry's one `=`. */
  lemma PermissionPairParts(perm: string)
    requires PermissionPair(perm).Success?
    ensures exists a, b :: && '=' !in a && '=' !in b
                           && Strip(perm) == a + "=" + b
                           && PermissionPair(perm).value == (Strip(a), Strip(b))
  {
    var parts := Split(Strip(perm), '=');
    SplitJoin(Strip(perm), '=');
    assert Join(parts, '=') == parts[0] + "=" + parts[1];
    assert parts[0] in parts && parts[1] in parts;
  }

  /** The permission dict built from the comma-separated entries, in order; the first bad entry raises. */
  function Permissions(entries: seq<string>): Result<map<string, string>, ParseError> {
    if entries == [] then Success(map[])
    else
      var acc :- Permissions(entries[..|entries| - 1]);
      var kv :- PermissionPair(entries[|entries| - 1]);
      Success(acc[kv.0 := kv.1])
  }

  /** The permission dict of the text between the brackets. */
  function PermissionsOf(perms: string): Result<map<string, string>, ParseError> {
    Permissions(Split(perms, ','))
  }

  /** `resource_definitions[name] = {...}` for one match, after its permissions parse. */
  function AddResource(defs: Dict<Resource>, m: ResourceCapture): Result<Dict<Resource>, ParseError> {
    var perms :- PermissionsOf(m.perms);
    Success(Put(defs, m.name, Resource(perms, m.uri, m.table)))
  }

  /** The resource dict after processing the matches in order. */
  function BuildResources(ms: seq<ResourceCapture>): Result<Dict<Resource>, ParseError> {
    if ms == [] then Success([])
    else
      var defs :- BuildResources(ms[..|ms| - 1]);
      AddResource(defs, ms[|ms| - 1])
  }

  function ResourceDefinitions(content: string): Result<Dict<Resource>, ParseError> {
    BuildResources(ResourceScan(content, 0))
  }

  function AccountOf(m: AccountCapture): Account {
    Account(m.name, Split(m.roles, ','), m.password, m.email)
  }

  function AccountDefinitions(content: string): seq<Account> {
    var ms := AccountScan(content, 0);
    seq(|ms|, i requires 0 <= i < |ms| => AccountOf(ms[i]))
  }

  // ---------------------------------------------------------------- the parsers

  /** The inner loop of `parse_resource_definitions`: fill `permissions` from one bracket list. */
  method ParsePermissions(permsStr: string) returns (r: Result<map<string, string>, ParseError>)
    ensures r == PermissionsOf(permsStr)
  {
    var entries := Split(permsStr, ',');
    var permissions: map<string, string> := map[];
    for j := 0 to |entries|
      invariant Permissions(entries[..j]) == Success(permissions)
    {
      var parts := Split(Strip(entries[j]), '=');
      PermissionsStep(entries[..j + 1]);
      assert entries[..j + 1][..j] == entries[..j];
      if |parts| != 2 {
        PermissionsFailureExtends(entries, j + 1);
        assert entries[..|entries|] == entries;
        return Failure(MalformedPermission(Strip(entries[j]), |parts|));
      }
      permissions := permissions[Strip(parts[0]) := Strip(parts[1])];
    }
    assert entries[..|entries|] == entries;
    return Success(permissions);
  }

  /** `parse_resource_definitions`. */
  method ParseResourceDefinitions(content: string) returns (r: Result<Dict<Resource>, ParseError>)
    ensures r == ResourceDefinitions(content)
  {
    var matches := ResourceScan(content, 0);
    var defs: Dict<Resource> := [];
    for i := 0 to |matches|
      invariant BuildResources(matches[..i]) == Success(defs)
    {
      var m := matches[i];
      var permissions := ParsePermissions(m.perms);
      BuildNext(matches, i, defs);
      if permissions.Failure? {
        return Failure(permissions.error);
      }
      defs := Put(defs, m.name, Resource(permissions.value, m.uri, m.table));
    }
    assert matches[..|matches|] == matches;
    return Success(defs);
  }

  /** `parse_account_definitions`. */
  method ParseAccountDefinitions(content: string) returns (accounts: seq<Account>)
    ensures accounts == AccountDefinitions(content)
  {
    var matches := AccountScan(content, 0);
    accounts := [];
    for i := 0 to |matches|
      invariant |accounts| == i
      invariant forall k :: 0 <= k < i ==> accounts[k] == AccountOf(matches[k])
    {
      var m := matches[i];
      var roles := Split(m.roles, ',');
      accounts := accounts + [Account(m.name, roles, m.password, m.email)];
    }
  }

  /**
   * `parse_resources_and_accounts`: the first `resources{...}` and `accounts{...}`
   * blocks, stripped and parsed; a missing block gives an empty result.
   */
  function ParseResourcesAndAccounts(text: string): (r: Result<(Dict<Resource>, seq<Account>), ParseError>)
    ensures r.Failure? ==> SearchBlock(text, "resources", 0).Some?
    ensures SearchBlock(text, "resources", 0).None? ==> r.Success? && r.value.0 == []
    ensures r.Success? && SearchBlock(text, "accounts", 0).None? ==> r.value.1 == []
    ensures r.Success? ==> DistinctKeys(r.value.0)
  {
    var resources :- match SearchBlock(text, "resources", 0)
                     case Some((_, content)) =>
                       (ResourceDefinitionsDistinct(Strip(content)); ResourceDefinitions(Strip(content)))
                     case None => Success([]);
    var accounts := match SearchBlock(text, "accounts", 0)
                    case Some((_, content)) => AccountDefinitions(Strip(content))
                    case None => [];
    Success((resources, accounts))
  }

  /** A parsed resource dict never holds a name twice: a redefinition replaces the earlier entry. */
  lemma ResourceDefinitionsDistinct(content: string)
    ensures ResourceDefinitions(content).Success? ==> DistinctKeys(ResourceDefinitions(content).value)
  {
    if ResourceDefinitions(content).Success? {
      ResourceKeyOrder(ResourceScan(content, 0));
    }
  }

  // ---------------------------------------------------------------- one step of each fold

  lemma PermissionsStep(entries: seq<string>)
    requires |entries| > 0
    ensures var init, last := entries[..|entries| - 1], entries[|entries| - 1];
      Permissions(entries)
      == if Permissions(init).Failure? then Permissions(init)
         else if PermissionPair(last).Failure? then Failure(PermissionPair(last).error)
         else Success(Permissions(init).value[PermissionPair(last).value.0 := PermissionPair(last).value.1])
  {
  }

  lemma BuildStep(ms: seq<ResourceCapture>)
    requires |ms| > 0
    ensures var init, last := ms[..|ms| - 1], ms[|ms| - 1];
      BuildResources(ms)
      == if BuildResources(init).Failure? then BuildResources(init)
         else if PermissionsOf(last.perms).Failure? then Failure(PermissionsOf(last.perms).error)
         else Success(Put(BuildResources(init).value, last.name,
                          Resource(PermissionsOf(last.perms).value, last.uri, last.table)))
  {
  }

  // ---------------------------------------------------------------- error propagation

  /** Once a prefix of the entries raises, the whole list raises the same error. */
  lemma {:induction false} PermissionsFailureExtends(entries: seq<string>, n: nat)
    requires n <= |entries| && Permissions(entries[..n]).Failure?
    ensures Permissions(entries) == Permissions(entries[..n])
    decreases |entries|
  {
    if n < |entries| {
      var init := entries[..|entries| - 1];
      assert init[..n] == entries[..n];
      PermissionsFailureExtends(init, n);
      PermissionsStep(entries);
    } else {
      assert entries[..n] == entries;
    }
  }

  /** Once a prefix of the matches raises, the whole scan raises the same error. */
  lemma {:induction false} BuildFailureExtends(ms: seq<ResourceCapture>, n: nat)
    requires n <= |ms| && BuildResources(ms[..n]).Failure?
    ensures BuildResources(ms) == BuildResources(ms[..n])
    decreases |ms|
  {
    if n < |ms| {
      var init := ms[..|ms| - 1];
      assert init[..n] == ms[..n];
      BuildFailureExtends(init, n);
      BuildStep(ms);
    } else {
      assert ms[..n] == ms;
    }
  }
  /** One iteration of the resource loop: the next declaration either raises for the whole scan or is added. */
  lemma BuildNext(ms: seq<ResourceCapture>, i: nat, defs: Dict<Resource>)
    requires i < |ms| && BuildResources(ms[..i]) == Success(defs)
    ensures PermissionsOf(ms[i].perms).Failure? ==> BuildResources(ms) == Failure(PermissionsOf(ms[i].perms).error)
    ensures PermissionsOf(ms[i].perms).Success? ==>
      BuildResources(ms[..i + 1])
      == Success(Put(defs, ms[i].name, Resource(PermissionsOf(ms[i].perms).value, ms[i].uri, ms[i].table)))
  {
    BuildStep(ms[..i + 1]);
    assert ms[..i + 1][..i] == ms[..i];
    if PermissionsOf(ms[i].perms).Failure? {
      BuildFailureExtends(ms, i + 1);
    }
  }


  // ---------------------------------------------------------------- permission lists

  /** In a list that parses, every entry holds exactly one `=`. */
  lemma {:induction false} PermissionsSuccessAt(entries: seq<string>, i: nat)
    requires Permissions(entries).Success? && i < |entries|
    ensures PermissionPair(entries[i]).Success?
  {
    var init := entries[..|entries| - 1];
    PermissionsStep(entries);
    if i < |init| {
      PermissionsSuccessAt(init, i);
      assert init[i] == entries[i];
    }
  }

  /** A list whose every entry holds exactly one `=` parses. */
  lemma {:induction false} PermissionsAllGood(entries: seq<string>)
    requires forall j :: 0 <= j < |entries| ==> Count(entries[j], '=') == 1
    ensures Permissions(entries).Success?
  {
    if entries != [] {
      var init := entries[..|entries| - 1];
      assert forall j :: 0 <= j < |init| ==> init[j] == entries[j];
      PermissionsAllGood(init);
      PermissionsStep(entries);
    }
  }

  /** The error raised names the first entry that does not hold exactly one `=`. */
  lemma {:induction false} PermissionsFirstBad(entries: seq<string>, i: nat)
    requires i < |entries| && Count(entries[i], '=') != 1
    requires forall j :: 0 <= j < i ==> Count(entries[j], '=') == 1
    ensures Permissions(entries) == Failure(MalformedPermission(Strip(entries[i]), Count(entries[i], '=') + 1))
  {
    var init := entries[..|entries| - 1];
    PermissionsStep(entries);
    if i < |init| {
      assert forall j :: 0 <= j <= i ==> init[j] == entries[j];
      PermissionsFirstBad(init, i);
      assert Permissions(entries) == Permissions(init);
    } else {
      assert forall j :: 0 <= j < |init| ==> init[j] == entries[j];
      PermissionsAllGood(init);
      assert entries[|entries| - 1] == entries[i];
      assert PermissionPair(entries[i]).Failure?;
      assert Permissions(entries) == Failure(PermissionPair(entries[i]).error);
    }
  }

  /**
   * A permission list raises exactly when one of its comma-separated entries does not
   * hold exactly one `=`.
   */
  lemma PermissionsError(entries: seq<string>)
    ensures Permissions(entries).Failure? <==> exists i :: 0 <= i < |entries| && Count(entries[i], '=') != 1
  {
    if Permissions(entries).Success? {
      forall i | 0 <= i < |entries| ensures Count(entries[i], '=') == 1 {
        PermissionsSuccessAt(entries, i);
      }
    } else if forall j :: 0 <= j < |entries| ==> Count(entries[j], '=') == 1 {
      PermissionsAllGood(entries);
    }
  }

  /** `"".split(',') == [""]`, and `""` has no `=`: an empty bracket list raises. */
  lemma EmptyPermissionListFails()
    ensures PermissionsOf("") == Failure(MalformedPermission("", 1))
  {
    assert Split("", ',') == [""];
    assert Count("", '=') == 0;
    PermissionsFirstBad([""], 0);
  }

  /** A trailing comma leaves an empty last entry, which raises. */
  lemma TrailingCommaFails(perms: string)
    requires |perms| > 0 && perms[|perms| - 1] == ','
    ensures PermissionsOf(perms).Failure?
  {
    var entries := Split(perms, ',');
    SplitTrailingSeparator(perms, ',');
    assert Count(entries[|entries| - 1], '=') == 0;
    PermissionsError(entries);
  }

  /** Every entry's stripped key is in the parsed dict. */
  lemma {:induction false} PermissionsHasKey(entries: seq<string>, i: nat)
    requires Permissions(entries).Success? && i < |entries|
    ensures PermissionPair(entries[i]).Success?
    ensures PermissionPair(entries[i]).value.0 in Permissions(entries).value
  {
    PermissionsSuccessAt(entries, i);
    var init := entries[..|entries| - 1];
    PermissionsStep(entries);
    if i < |init| {
      PermissionsHasKey(init, i);
      assert init[i] == entries[i];
    }
  }

  /** Every key of the parsed dict comes from one of the entries. */
  lemma {:induction false} PermissionsKeyFrom(entries: seq<string>, k: string)
    requires Permissions(entries).Success? && k in Permissions(entries).value
    ensures exists i :: 0 <= i < |entries| && PermissionPair(entries[i]).Success?
                        && PermissionPair(entries[i]).value.0 == k
  {
    var init := entries[..|entries| - 1];
    var last := entries[|entries| - 1];
    PermissionsStep(entries);
    if PermissionPair(last).value.0 != k {
      PermissionsKeyFrom(init, k);
      var i :| 0 <= i < |init| && PermissionPair(init[i]).Success? && PermissionPair(init[i]).value.0 == k;
      assert init[i] == entries[i];
    }
  }

  /** The last entry that names a key gives its value. */
  lemma {:induction false} PermissionsLastWins(entries: seq<string>, i: nat)
    requires Permissions(entries).Success? && i < |entries|
    requires PermissionPair(entries[i]).Success?
    requires forall j :: i < j < |entries| ==>
      PermissionPair(entries[j]).Success? && PermissionPair(entries[j]).value.0 != PermissionPair(entries[i]).value.0
    ensures PermissionPair(entries[i]).value.0 in Permissions(entries).value
    ensures Permissions(entries).value[PermissionPair(entries[i]).value.0] == PermissionPair(entries[i]).value.1
  {
    var init := entries[..|entries| - 1];
    PermissionsStep(entries);
    if i < |init| {
      assert init[i] == entries[i];
      assert forall j :: i < j < |init| ==> init[j] == entries[j];
      PermissionsSuccessAt(entries, |entries| - 1);
      PermissionsLastWins(init, i);
    }
  }

  // ---------------------------------------------------------------- the resource dict

  function Names(ms: seq<ResourceCapture>): (ns: seq<string>)
    ensures |ns| == |ms| && forall i :: 0 <= i < |ms| ==> ns[i] == ms[i].name
  {
    seq(|ms|, i requires 0 <= i < |ms| => ms[i].name)
  }

  /** In a scan that builds, every declaration's permission list parses. */
  lemma {:induction false} BuildSuccessAt(ms: seq<ResourceCapture>, i: nat)
    requires BuildResources(ms).Success? && i < |ms|
    ensures PermissionsOf(ms[i].perms).Success?
  {
    BuildStep(ms);
    if i < |ms| - 1 {
      BuildSuccessAt(ms[..|ms| - 1], i);
    }
  }

  /** A scan whose every permission list parses builds. */
  lemma {:induction false} BuildAllGood(ms: seq<ResourceCapture>)
    requires forall j :: 0 <= j < |ms| ==> PermissionsOf(ms[j].perms).Success?
    ensures BuildResources(ms).Success?
  {
    if ms != [] {
      var init := ms[..|ms| - 1];
      assert forall j :: 0 <= j < |init| ==> init[j] == ms[j];
      BuildAllGood(init);
      BuildStep(ms);
    }
  }

  /** Building the dict raises exactly when some declaration's permission list raises. */
  lemma ResourcesFailIff(ms: seq<ResourceCapture>)
    ensures BuildResources(ms).Failure? <==> exists i :: 0 <= i < |ms| && PermissionsOf(ms[i].perms).Failure?
  {
    if BuildResources(ms).Success? {
      forall i | 0 <= i < |ms| ensures PermissionsOf(ms[i].perms).Success? {
        BuildSuccessAt(ms, i);
      }
    } else if forall j :: 0 <= j < |ms| ==> PermissionsOf(ms[j].perms).Success? {
      BuildAllGood(ms);
    }
  }

  /**
   * A repeated name keeps its first insertion position: the keys of the dict are the
   * declared names with repeats dropped, in order of first declaration.
   */
  lemma {:induction false} ResourceKeyOrder(ms: seq<ResourceCapture>)
    requires BuildResources(ms).Success?
    ensures Keys(BuildResources(ms).value) == Dedup(Names(ms))
    ensures DistinctKeys(BuildResources(ms).value)
  {
    if ms != [] {
      var init, last := ms[..|ms| - 1], ms[|ms| - 1];
      BuildStep(ms);
      BuildSuccessAt(ms, |ms| - 1);
      ResourceKeyOrder(init);
      var defs := BuildResources(init).value;
      PutKeys(defs, last.name, Resource(PermissionsOf(last.perms).value, last.uri, last.table));
      var names := Names(ms);
      assert names[..|ms| - 1] == Names(init);
      assert names[|ms| - 1] == last.name;
      assert last.name in Keys(defs) <==> last.name in Names(init);
    }
  }

  /** A repeated name keeps the last definition: the last declaration of a name gives its entry. */
  lemma {:induction false} ResourceLastWins(ms: seq<ResourceCapture>, i: nat)
    requires BuildResources(ms).Success?
    requires i < |ms| && forall j :: i < j < |ms| ==> ms[j].name != ms[i].name
    ensures PermissionsOf(ms[i].perms).Success?
    ensures Get(BuildResources(ms).value, ms[i].name)
            == Some(Resource(PermissionsOf(ms[i].perms).value, ms[i].uri, ms[i].table))
  {
    var init := ms[..|ms| - 1];
    var last := ms[|ms| - 1];
    BuildStep(ms);
    BuildSuccessAt(ms, i);
    if i < |ms| - 1 {
      assert init[i] == ms[i];
      assert forall j :: i < j < |init| ==> init[j] == ms[j];
      ResourceLastWins(init, i);
      PutOther(BuildResources(init).value, last.name,
               Resource(PermissionsOf(last.perms).value, last.uri, last.table), ms[i].name);
    }
  }

  // ---------------------------------------------------------------- the account list

  /**
   * Accounts come out in declaration order, one per match, and `roles` is always the
   * one-element list of the second group, because `\w+` never contains a comma.
   */
  lemma AccountsInOrder(content: string)
    ensures var ms := AccountScan(content, 0);
      && |AccountDefinitions(content)| == |ms|
      && forall i :: 0 <= i < |ms| ==>
           AccountDefinitions(content)[i] == Account(ms[i].name, [ms[i].roles], ms[i].password, ms[i].email)
  {
    var ms := AccountScan(content, 0);
    forall i | 0 <= i < |ms|
      ensures Split(ms[i].roles, ',') == [ms[i].roles]
    {
      assert ms[i] in ms;
      SplitWithoutSeparator(ms[i].roles, ',');
    }
  }

  // ---------------------------------------------------------------- missing blocks

  /** Without a closed `resources{...}` block the resource dict is empty, and that is not an error. */
  lemma NoResourcesBlock(text: string)
    requires forall i :: 0 <= i <= |text| ==> !(StartsAt(text, i, "resources{") && '}' in text[i + 10..])
    ensures ParseResourcesAndAccounts(text).Success?
    ensures ParseResourcesAndAccounts(text).value.0 == []
  {
    assert "resources" + "{" == "resources{";
    assert SearchBlock(text, "resources", 0).None?;
  }

  /** Without a closed `accounts{...}` block the account list is empty. */
  lemma NoAccountsBlock(text: string)
    requires forall i :: 0 <= i <= |text| ==> !(StartsAt(text, i, "accounts{") && '}' in text[i + 9..])
    ensures ParseResourcesAndAccounts(text).Success? ==> ParseResourcesAndAccounts(text).value.1 == []
  {
    assert "accounts" + "{" == "accounts{";
    assert SearchBlock(text, "accounts", 0).None?;
  }
}
