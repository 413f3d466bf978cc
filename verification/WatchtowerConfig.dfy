/** Validator tokens: the part of configuration validation that makes the token index sound
(internal/watchtower/config/config.go, internal/watchtower/auth/auth.go). */
module WatchtowerConfig {
  import opened Wrappers

  datatype ValidatorConfig = ValidatorConfig(token: string, permissions: seq<string>, logsMinLevel: string)

  type Validators = map<string, ValidatorConfig>

  datatype Security = Security(banThreshold: int, banDuration: int)

  datatype ConfigError =
    | BanThreshold | BanDuration
    | TokenRequired(name: string) | SharedToken(other: string, name: string) | UnknownPermission(name: string)

  const PERMISSIONS: set<string> := {"rpc", "metrics", "logs", "otlp"}

  predicate KnownPermissions(v: ValidatorConfig) {
    forall p :: p in v.permissions ==> p in PERMISSIONS
  }

  lemma KnownPermissionsAre(v: ValidatorConfig)
    ensures KnownPermissions(v)
            <==> forall i :: 0 <= i < |v.permissions| ==>
                   v.permissions[i] == "rpc" || v.permissions[i] == "metrics" || v.permissions[i] == "logs" || v.permissions[i] == "otlp"
  {
    if !KnownPermissions(v) {
      var p :| p in v.permissions && p !in PERMISSIONS;
      var i :| 0 <= i < |v.permissions| && v.permissions[i] == p;
    } else {
      assert forall i :: 0 <= i < |v.permissions| ==> v.permissions[i] in v.permissions;
    }
  }

  predicate UniqueTokens(validators: Validators) {
    forall a, b :: a in validators && b in validators && a != b ==> validators[a].token != validators[b].token
  }

  predicate Acceptable(security: Security, validators: Validators) {
    && security.banThreshold > 0 && security.banDuration > 0
    && (forall name :: name in validators ==> validators[name].token != "" && KnownPermissions(validators[name]))
    && UniqueTokens(validators)
  }

  /** The error names something that is really wrong. */
  predicate Justified(error: ConfigError, security: Security, validators: Validators) {
    match error
    case BanThreshold => security.banThreshold <= 0
    case BanDuration => security.banThreshold > 0 && security.banDuration <= 0
    case TokenRequired(name) => name in validators && validators[name].token == ""
    case SharedToken(other, name) =>
      other in validators && name in validators && other != name && validators[other].token == validators[name].token != ""
    case UnknownPermission(name) => name in validators && validators[name].token != "" && !KnownPermissions(validators[name])
  }

  /** Names are visited in any order, as map iteration does. */
  method Validate(security: Security, validators: Validators) returns (error: Option<ConfigError>)
    ensures error == None <==> Acceptable(security, validators)
    ensures error.Some? ==> Justified(error.value, security, validators)
    ensures security.banThreshold <= 0 || security.banDuration <= 0 ==>
              error == Some(if security.banThreshold <= 0 then BanThreshold else BanDuration)
  {
    if security.banThreshold <= 0 {
      return Some(BanThreshold);
    }
    if security.banDuration <= 0 {
      return Some(BanDuration);
    }
    var seenTokens: map<string, string> := map[];
    var todo := validators.Keys;
    while todo != {}
      invariant todo <= validators.Keys
      invariant forall t :: t in seenTokens ==>
                  seenTokens[t] in validators.Keys - todo && validators[seenTokens[t]].token == t
      invariant forall name :: name in validators.Keys - todo ==>
                  && validators[name].token != "" && KnownPermissions(validators[name])
                  && validators[name].token in seenTokens && seenTokens[validators[name].token] == name
      decreases todo
    {
      var name :| name in todo;
      var v := validators[name];
      if v.token == "" {
        return Some(TokenRequired(name));
      }
      if v.token in seenTokens {
        return Some(SharedToken(seenTokens[v.token], name));
      }
      seenTokens := seenTokens[v.token := name];
      var i := 0;
      while i < |v.permissions|
        invariant 0 <= i <= |v.permissions|
        invariant forall k :: 0 <= k < i ==> v.permissions[k] in PERMISSIONS
      {
        if v.permissions[i] !in PERMISSIONS {
          return Some(UnknownPermission(name));
        }
        i := i + 1;
      }
      todo := todo - {name};
    }
    error := None;
  }

  // ---- the token index ----

  datatype TokenEntry = TokenEntry(validatorName: string, config: ValidatorConfig)

  type Index = map<string, TokenEntry>

  /** Some index that filling a map from `validators`, in some order, can give. */
  ghost predicate Indexes(tokens: Index, validators: Validators) {
    && (forall name :: name in validators ==> validators[name].token in tokens)
    && (forall t :: t in tokens ==>
          && tokens[t].validatorName in validators
          && tokens[t].config == validators[tokens[t].validatorName]
          && tokens[t].config.token == t)
  }

  method BuildIndex(validators: Validators) returns (tokens: Index)
    ensures Indexes(tokens, validators)
  {
    tokens := map[];
    var todo := validators.Keys;
    while todo != {}
      invariant todo <= validators.Keys
      invariant Indexes(tokens, map name | name in validators && name !in todo :: validators[name])
      decreases todo
    {
      var name :| name in todo;
      tokens := tokens[validators[name].token := TokenEntry(name, validators[name])];
      todo := todo - {name};
    }
    assert (map name | name in validators && name !in todo :: validators[name]) == validators;
  }

  /** With unique tokens a token stands for validator v exactly when it is v's configured token. */
  lemma TokenStandsFor(tokens: Index, validators: Validators, t: string, name: string)
    requires Indexes(tokens, validators) && UniqueTokens(validators)
    ensures t in tokens && tokens[t].validatorName == name <==> name in validators && validators[name].token == t
    ensures t in tokens && tokens[t].validatorName == name ==> tokens[t].config == validators[name]
  {
    if name in validators && validators[name].token == t {
      assert tokens[t].validatorName == name;
    }
  }

  predicate HasToken(validators: Validators, name: string, t: string) {
    name in validators && validators[name].token == t
  }

  ghost function Owner(validators: Validators, t: string): (name: string)
    requires exists name :: HasToken(validators, name, t)
    ensures HasToken(validators, name, t)
  {
    var name :| HasToken(validators, name, t);
    name
  }

  function Tokens(validators: Validators): set<string> {
    set name | name in validators :: validators[name].token
  }

  ghost function AnyIndex(validators: Validators): (tokens: Index)
    ensures Indexes(tokens, validators)
  {
    assert forall name :: name in validators ==> HasToken(validators, name, validators[name].token);
    map t | t in Tokens(validators) :: TokenEntry(Owner(validators, t), validators[Owner(validators, t)])
  }

  lemma TwoOrders(validators: Validators, x: string, y: string)
    requires x in validators && y in validators && x != y && validators[x].token == validators[y].token
    ensures exists a: Index, b: Index :: Indexes(a, validators) && Indexes(b, validators) && a != b
  {
    var t, base := validators[x].token, AnyIndex(validators);
    var a, b := base[t := TokenEntry(x, validators[x])], base[t := TokenEntry(y, validators[y])];
    assert Indexes(a, validators) && Indexes(b, validators);
    assert a[t].validatorName == x && b[t].validatorName == y;
  }

  ghost predicate OrderIndependent(validators: Validators) {
    forall a: Index, b: Index :: Indexes(a, validators) && Indexes(b, validators) ==> a == b
  }

  /** The index does not depend on the iteration order exactly when no token is shared. */
  lemma IndexDeterminism(validators: Validators)
    ensures OrderIndependent(validators) <==> UniqueTokens(validators)
  {
    if UniqueTokens(validators) {
      forall a: Index, b: Index | Indexes(a, validators) && Indexes(b, validators)
        ensures a == b
      {
        SameIndex(a, b, validators);
      }
    }
    if OrderIndependent(validators) {
      forall x, y | x in validators && y in validators && x != y
        ensures validators[x].token != validators[y].token
      {
        if validators[x].token == validators[y].token {
          TwoOrders(validators, x, y);
        }
      }
    }
  }

  lemma SameIndex(a: Index, b: Index, validators: Validators)
    requires UniqueTokens(validators) && Indexes(a, validators) && Indexes(b, validators)
    ensures a == b
  {
    forall t ensures t in a <==> t in b {
      if t in a { TokenStandsFor(a, validators, t, a[t].validatorName); }
      if t in b { TokenStandsFor(b, validators, t, b[t].validatorName); }
    }
    forall t | t in a ensures a[t] == b[t] {
      TokenStandsFor(a, validators, t, a[t].validatorName);
      TokenStandsFor(b, validators, t, a[t].validatorName);
    }
  }
}
