// Roles in ID-token claims, and the normal form they are stored in.
module Claims {
  import opened Text
  import opened Order

  datatype Json =
    | Null | Bool(b: bool) | Number(n: real) | Str(s: string) | Arr(items: seq<Json>) | Obj(fields: map<string, Json>)

  const ROLE_KEYS: seq<string> := ["SUPER_ADMIN", "APP_ADMIN", "CONTENT_ADMIN", "SUPPORT_ADMIN", "REPORT_VIEWER"]

  /** `current[segment]`; None is `undefined`. Arrays have their indices and length. */
  function Property(j: Json, segment: string): Option<Json> {
    match j
    case Obj(fields) => if segment in fields then Some(fields[segment]) else None
    case Arr(items) =>
      if segment == "length" then Some(Number(|items| as real))
      else if IsNumeral(segment, 10) && segment == Numeral(NumeralValue(segment, 10), 10) && NumeralValue(segment, 10) < |items|
      then Some(items[NumeralValue(segment, 10)])
      else None
    case _ => None
  }

  function ReadPath(j: Json, segments: seq<string>): Option<Json>
    decreases |segments|
  {
    if segments == [] then Some(j)
    else
      match Property(j, segments[0])
      case None => None
      case Some(next) => ReadPath(next, segments[1..])
  }

  method ReadClaimPath(claims: Json, path: string) returns (value: Option<Json>)
    ensures value == ReadPath(claims, Split(path, '.'))
  {
    var segments := Split(path, '.');
    value := Some(claims);
    for k := 0 to |segments|
      invariant ReadPath(claims, segments) == match value case None => None case Some(v) => ReadPath(v, segments[k..])
    {
      if value.Some? {
        value := Property(value.value, segments[k]);
        assert segments[k..][1..] == segments[k + 1..];
      }
    }
    assert segments[|segments|..] == [];
  }

  /** The claim's values: an array's members, or the one string. */
  function ClaimValues(claims: Json, path: string): seq<Json> {
    match ReadPath(claims, Split(path, '.'))
    case Some(Arr(items)) => items
    case Some(Str(s)) => [Str(s)]
    case _ => []
  }

  /** The known role keys among the values, in order of appearance. */
  function KnownRoles(values: seq<Json>): seq<string> {
    if values == [] then []
    else
      var v := values[|values| - 1];
      KnownRoles(values[..|values| - 1]) + (if v.Str? && v.s in ROLE_KEYS then [v.s] else [])
  }

  /** The known keys of a claim, each once, sorted. */
  function RoleKeys(claims: Json, path: string): seq<string> {
    SortUnique(KnownRoles(ClaimValues(claims, path)))
  }

  method ExtractRoleKeys(claims: Json, path: string) returns (roles: seq<string>)
    ensures roles == RoleKeys(claims, path)
  {
    var raw := ReadClaimPath(claims, path);
    var values := match raw case Some(Arr(items)) => items case Some(Str(s)) => [Str(s)] case _ => [];
    roles := [];
    for k := 0 to |values|
      invariant roles == SortUnique(KnownRoles(values[..k]))
    {
      KnownRolesStep(values, k);
      if values[k].Str? && values[k].s in ROLE_KEYS {
        roles := Insert(roles, values[k].s);
      }
    }
    assert values[..|values|] == values;
  }

  lemma KnownRolesStep(values: seq<Json>, k: nat)
    requires k < |values|
    ensures var v := values[k];
            SortUnique(KnownRoles(values[..k + 1]))
            == if v.Str? && v.s in ROLE_KEYS then Insert(SortUnique(KnownRoles(values[..k])), v.s)
                else SortUnique(KnownRoles(values[..k]))
  {
    hide Insert;
    var v, before := values[k], KnownRoles(values[..k]);
    assert values[..k + 1][..k] == values[..k];
    if v.Str? && v.s in ROLE_KEYS {
      assert (before + [v.s])[..|before|] == before;
    } else {
      assert before + [] == before;
    }
  }

  lemma {:induction false} KnownRolesMembers(values: seq<Json>)
    ensures forall r :: r in KnownRoles(values) <==> Str(r) in values && r in ROLE_KEYS
  {
    if values != [] {
      KnownRolesMembers(values[..|values| - 1]);
      assert values == values[..|values| - 1] + [values[|values| - 1]];
    }
  }

  /** The extracted roles: strictly increasing, and exactly the known keys among the values. */
  lemma RoleKeysNormalForm(values: seq<Json>)
    ensures var roles := SortUnique(KnownRoles(values));
            Increasing(roles) && forall r :: r in roles <==> Str(r) in values && r in ROLE_KEYS
  {
    SortUniqueSorts(KnownRoles(values));
    KnownRolesMembers(values);
  }

  /** Order and repetition in the claim do not matter. */
  lemma RoleKeysIgnoreOrder(values1: seq<Json>, values2: seq<Json>)
    requires forall v :: v in values1 <==> v in values2
    ensures SortUnique(KnownRoles(values1)) == SortUnique(KnownRoles(values2))
  {
    RoleKeysNormalForm(values1);
    RoleKeysNormalForm(values2);
    IncreasingUnique(SortUnique(KnownRoles(values1)), SortUnique(KnownRoles(values2)));
  }

  // ---- comparing roles by their joined text ------------------------------------------------

  ghost predicate IsRoleKeys(roles: seq<string>) {
    Increasing(roles) && forall r :: r in roles ==> r in ROLE_KEYS
  }

  lemma RoleKeyText(r: string)
    requires r in ROLE_KEYS
    ensures r != "" && ',' !in r
  {
  }

  /** The joined texts of stored and token roles agree iff the role sets do. */
  lemma JoinedRolesAgree(stored: seq<string>, roles: seq<string>)
    requires Free(stored, ',') && IsRoleKeys(roles) && roles != []
    ensures Join(SortUnique(stored), ',') == Join(roles, ',') <==> forall r :: r in stored <==> r in roles
  {
    var current := SortUnique(stored);
    SortUniqueSorts(stored);
    forall k | 0 <= k < |roles| ensures ',' !in roles[k] && roles[k] != "" {
      assert roles[k] in roles;
      RoleKeyText(roles[k]);
    }
    forall k | 0 <= k < |current| ensures ',' !in current[k] {
      assert current[k] in stored;
    }
    assert Join(roles, ',') != "";
    if Join(current, ',') == Join(roles, ',') {
      assert current != [];
      JoinInjective(current, roles, ',');
    } else if forall r :: r in stored <==> r in roles {
      IncreasingUnique(current, roles);
    }
  }

  // ---- roles per application ---------------------------------------------------------------------

  type AppRoles = map<string, seq<string>>

  function Strings(items: seq<Json>): seq<string> {
    if items == [] then []
    else Strings(items[..|items| - 1]) + (if items[|items| - 1].Str? then [items[|items| - 1].s] else [])
  }

  /** Clean one array of roles: strings only, each once, sorted. */
  function CleanRoles(j: Json): seq<string> {
    if j.Arr? then SortUnique(Strings(j.items)) else []
  }

  function ParseAppRoles(j: Json): AppRoles {
    if !j.Obj? then map[]
    else map c | c in j.fields && Settable(c) && CleanRoles(j.fields[c]) != [] :: CleanRoles(j.fields[c])
  }

  /** The `roles` member of a client's entry; anything but an object has none. */
  function EntryRoles(entry: Json): Json {
    match Property(entry, "roles")
    case Some(j) => j
    case None => Null
  }

  function ExtractAppRoles(claims: Json, allowed: Option<seq<string>>): AppRoles {
    match Property(claims, "resource_access")
    case Some(Obj(access)) =>
      map c | c in access && Settable(c) && (allowed.None? || c in allowed.value) && CleanRoles(EntryRoles(access[c])) != []
        :: CleanRoles(EntryRoles(access[c]))
    case _ => map[]
  }

  function Texts(roles: seq<string>): seq<Json> {
    if roles == [] then [] else Texts(roles[..|roles| - 1]) + [Str(roles[|roles| - 1])]
  }

  /** How the map is stored. */
  function ToJson(m: AppRoles): Json {
    Obj(map c | c in m :: Arr(Texts(m[c])))
  }

  lemma {:induction false} StringsOfTexts(roles: seq<string>)
    ensures Strings(Texts(roles)) == roles
  {
    if roles != [] {
      var n := |roles| - 1;
      StringsOfTexts(roles[..n]);
      assert Texts(roles)[..|Texts(roles)| - 1] == Texts(roles[..n]);
      assert roles == roles[..n] + [roles[n]];
    }
  }

  lemma SortUniqueIdempotent(values: seq<string>)
    ensures SortUnique(SortUnique(values)) == SortUnique(values)
  {
    SortUniqueSorts(values);
    SortUniqueSorts(SortUnique(values));
    IncreasingUnique(SortUnique(SortUnique(values)), SortUnique(values));
  }

  lemma CleanIsStable(j: Json)
    ensures CleanRoles(Arr(Texts(CleanRoles(j)))) == CleanRoles(j)
  {
    StringsOfTexts(CleanRoles(j));
    if j.Arr? {
      SortUniqueIdempotent(Strings(j.items));
    }
  }

  /** A map of clean, non-empty roles survives storing and reading. */
  lemma ParseOfStored(m: AppRoles)
    requires forall c :: c in m ==> Settable(c) && m[c] != [] && CleanRoles(Arr(Texts(m[c]))) == m[c]
    ensures ParseAppRoles(ToJson(m)) == m
  {
    hide CleanRoles, Texts;
  }

  /** What sign-in extracts is already what reading the stored value gives. */
  lemma ParseOfExtracted(claims: Json, allowed: Option<seq<string>>)
    ensures var m := ExtractAppRoles(claims, allowed); ParseAppRoles(ToJson(m)) == m
  {
    hide CleanRoles, Texts, EntryRoles, ParseAppRoles, ToJson;
    var m := ExtractAppRoles(claims, allowed);
    forall c | c in m ensures CleanRoles(Arr(Texts(m[c]))) == m[c] {
      CleanIsStable(EntryRoles(Property(claims, "resource_access").value.fields[c]));
    }
    ParseOfStored(m);
  }

  /** Parsing what parsing gave changes nothing, for any stored value. */
  lemma ParseOfParsed(j: Json)
    ensures ParseAppRoles(ToJson(ParseAppRoles(j))) == ParseAppRoles(j)
  {
    hide CleanRoles, Texts, ToJson;
    var m := ParseAppRoles(j);
    forall c | c in m ensures CleanRoles(Arr(Texts(m[c]))) == m[c] {
      CleanIsStable(j.fields[c]);
    }
    ParseOfStored(m);
  }

  lemma {:induction false} StringsMembers(items: seq<Json>)
    ensures forall r :: r in Strings(items) <==> Str(r) in items
  {
    if items != [] {
      StringsMembers(items[..|items| - 1]);
      assert items == items[..|items| - 1] + [items[|items| - 1]];
    }
  }

  /** Exactly the allowed clients with some role, each with its role strings, sorted and without repeats. */
  lemma AppRolesNormalForm(access: map<string, Json>, others: map<string, Json>, allowed: Option<seq<string>>, c: string)
    requires "resource_access" in others && others["resource_access"] == Obj(access)
    ensures var m := ExtractAppRoles(Obj(others), allowed);
            && (c in m <==> c in access && Settable(c) && (allowed.None? || c in allowed.value)
                            && EntryRoles(access[c]).Arr? && exists r :: Str(r) in EntryRoles(access[c]).items)
            && (c in m ==> Increasing(m[c]) && forall r :: r in m[c] <==> Str(r) in EntryRoles(access[c]).items)
  {
    if c in access && EntryRoles(access[c]).Arr? {
      var items := EntryRoles(access[c]).items;
      StringsMembers(items);
      SortUniqueSorts(Strings(items));
      if SortUnique(Strings(items)) != [] {
        assert SortUnique(Strings(items))[0] in SortUnique(Strings(items));
      }
    }
  }

  // ---- tokens as Keycloak writes them ----------------------------------------------------------

  predicate IsKnownKey(role: string) {
    role in {"SUPER_ADMIN", "APP_ADMIN", "CONTENT_ADMIN", "SUPPORT_ADMIN", "REPORT_VIEWER"}
  }

  lemma RealmRolesPath()
    ensures Split("realm_access.roles", '.') == ["realm_access", "roles"]
  {
    var parts := ["realm_access", "roles"];
    assert Join(parts[1..], '.') == "roles";
    assert Join(parts, '.') == "realm_access.roles";
    SplitOfJoin(parts, '.');
  }

  /** A token whose `realm_access.roles` lists values gives exactly the known keys among them, sorted. */
  lemma RolesOfToken(claims: map<string, Json>, access: map<string, Json>, r: string)
    requires "realm_access" in claims && claims["realm_access"] == Obj(access) && "roles" in access
    ensures var roles := RoleKeys(Obj(claims), "realm_access.roles");
            && Increasing(roles)
            && (access["roles"].Arr? ==> (r in roles <==> Str(r) in access["roles"].items && IsKnownKey(r)))
            && (access["roles"].Str? ==> (r in roles <==> r == access["roles"].s && IsKnownKey(r)))
            && (!access["roles"].Arr? && !access["roles"].Str? ==> roles == [])
  {
    RealmRolesPath();
    hide Split;
    var path := ["realm_access", "roles"];
    assert path[1..] == ["roles"] && ["roles"][1..] == [];
    assert ReadPath(Obj(access), ["roles"]) == Some(access["roles"]);
    assert ReadPath(Obj(claims), path) == Some(access["roles"]);
    RoleKeysNormalForm(ClaimValues(Obj(claims), "realm_access.roles"));
    hide SortUnique, KnownRoles;
  }

  /** A token without such a claim gives no role. */
  lemma NoRolesInToken(claims: map<string, Json>)
    requires "realm_access" !in claims
    ensures RoleKeys(Obj(claims), "realm_access.roles") == []
  {
    RealmRolesPath();
  }

  /** The roles of one client's entry are its `roles` member. */
  lemma EntryRolesAre(fields: map<string, Json>)
    ensures EntryRoles(Obj(fields)) == if "roles" in fields then fields["roles"] else Null
  {
  }
}
