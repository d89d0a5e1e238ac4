/**
 * The wrapper objects of the iOS binding: the conversion of a native set to
 * an array, `FacebookError`, and the `AccessToken` and `LoginResult`
 * wrappers, whose permission getters convert a native set on first read and
 * return the cached array afterwards.
 */
module Facebook {
  import opened Wrappers
  import opened Native

  /**
   * `setToArray`: copies the first `count` entries of `allObjects` into a new
   * array, so the array lists every member of the set exactly once.
   */
  method SetToArray<T(==)>(value: NSSet<T>) returns (result: seq<T>)
    ensures |result| == value.count
    ensures forall i :: 0 <= i < |result| ==> result[i] == value.allObjects[i]
    ensures Distinct(result)
    ensures forall x :: x in result <==> x in value.allObjects
  {
    result := [];
    var nativeObjects := value.allObjects;
    var count := value.count;
    for i := 0 to count
      invariant |result| == i
      invariant forall k :: 0 <= k < i ==> result[k] == nativeObjects[k]
    {
      result := result + [nativeObjects[i]];
    }
    assert result == nativeObjects;
  }

  /** `FacebookError`: the `Error` message and the wrapped native error, if any. */
  datatype FacebookError = FacebookError(message: string, native: Option<NativeError>)

  /**
   * `FacebookError.fromNative(native, message?)`: a non-empty message given by
   * the caller wins; otherwise the native error's description is used, and with
   * neither the message is empty (what `new Error(undefined)` gives).
   */
  function FacebookErrorFromNative(native: Option<NativeError>, message: Option<string>): (e: FacebookError)
    ensures e.native == native
    ensures message.Some? && message.value != "" ==> e.message == message.value
    ensures (message.None? || message.value == "") && native.Some? ==> e.message == native.value.localizedDescription
    ensures e.message == "" <==> (message.None? || message.value == "") && (native.None? || native.value.localizedDescription == "")
  {
    var text :=
      if message.Some? && message.value != "" then message.value
      else if native.Some? then native.value.localizedDescription
      else "";
    FacebookError(text, native)
  }

  /**
   * A memoised conversion of `source`: empty and never converted, or holding
   * the converted array after exactly one conversion.
   */
  ghost predicate Cached(cache: Option<seq<string>>, source: NSSet<string>, conversions: nat)
  {
    if cache.Some? then cache.value == source.allObjects && conversions == 1 else conversions == 0
  }

  /** `AccessToken`: a wrapper around one native token with three cached permission arrays. */
  class AccessToken {
    const native: NativeAccessToken
    var declinedPermissions: Option<seq<string>>
    var expiredPermissions: Option<seq<string>>
    var permissions: Option<seq<string>>
    /** How many times each native set has been converted. */
    ghost var declinedConversions: nat
    ghost var expiredConversions: nat
    ghost var permissionsConversions: nat

    ghost predicate Valid()
      reads this
    {
      && Cached(declinedPermissions, native.declinedPermissions, declinedConversions)
      && Cached(expiredPermissions, native.expiredPermissions, expiredConversions)
      && Cached(permissions, native.permissions, permissionsConversions)
    }

    /** Nothing has been read yet. */
    ghost predicate Unread()
      reads this
    {
      declinedPermissions.None? && expiredPermissions.None? && permissions.None?
    }

    constructor (native: NativeAccessToken)
      ensures this.native == native
      ensures Valid() && Unread()
    {
      this.native := native;
      declinedPermissions, expiredPermissions, permissions := None, None, None;
      declinedConversions, expiredConversions, permissionsConversions := 0, 0, 0;
    }

    /** `get declinedPermissions`. */
    method DeclinedPermissions() returns (r: seq<string>)
      requires Valid()
      modifies this`declinedPermissions, this`declinedConversions
      ensures Valid()
      ensures r == native.declinedPermissions.allObjects
      ensures declinedPermissions == Some(r) && declinedConversions == 1
      ensures old(declinedPermissions).Some? ==> r == old(declinedPermissions).value && declinedConversions == old(declinedConversions)
    {
      if declinedPermissions.None? {
        var converted := SetToArray(native.declinedPermissions);
        declinedPermissions := Some(converted);
        declinedConversions := declinedConversions + 1;
      }
      r := declinedPermissions.value;
    }

    /** `get expiredPermissions`. */
    method ExpiredPermissions() returns (r: seq<string>)
      requires Valid()
      modifies this`expiredPermissions, this`expiredConversions
      ensures Valid()
      ensures r == native.expiredPermissions.allObjects
      ensures expiredPermissions == Some(r) && expiredConversions == 1
      ensures old(expiredPermissions).Some? ==> r == old(expiredPermissions).value && expiredConversions == old(expiredConversions)
    {
      if expiredPermissions.None? {
        var converted := SetToArray(native.expiredPermissions);
        expiredPermissions := Some(converted);
        expiredConversions := expiredConversions + 1;
      }
      r := expiredPermissions.value;
    }

    /** `get permissions`. */
    method Permissions() returns (r: seq<string>)
      requires Valid()
      modifies this`permissions, this`permissionsConversions
      ensures Valid()
      ensures r == native.permissions.allObjects
      ensures permissions == Some(r) && permissionsConversions == 1
      ensures old(permissions).Some? ==> r == old(permissions).value && permissionsConversions == old(permissionsConversions)
    {
      if permissions.None? {
        var converted := SetToArray(native.permissions);
        permissions := Some(converted);
        permissionsConversions := permissionsConversions + 1;
      }
      r := permissions.value;
    }
  }

  /** `AccessToken.fromNative`: a fresh wrapper for a native token, null for anything else. */
  method AccessTokenFromNative(accessToken: NativeRef) returns (token: AccessToken?)
    ensures token != null <==> accessToken.AccessTokenObject?
    ensures token != null ==> fresh(token) && token.native == accessToken.accessToken && token.Valid() && token.Unread()
  {
    if accessToken.AccessTokenObject? {
      token := new AccessToken(accessToken.accessToken);
    } else {
      token := null;
    }
  }

  /** `LoginResult`: a wrapper around one native login result with cached permission arrays and token. */
  class LoginResult {
    const native: NativeLoginResult
    var token: AccessToken?
    var declinedPermissions: Option<seq<string>>
    var grantedPermissions: Option<seq<string>>
    ghost var declinedConversions: nat
    ghost var grantedConversions: nat
    /** How many times the native `token` has been read and wrapped. */
    ghost var tokenReads: nat

    /** The caches hold the native contents, and a cached token wrapper is itself valid. */
    ghost predicate Valid()
      reads this, token
    {
      && Cached(declinedPermissions, native.declinedPermissions, declinedConversions)
      && Cached(grantedPermissions, native.grantedPermissions, grantedConversions)
      && (token != null ==> native.token.AccessTokenObject? && token.native == native.token.accessToken && token.Valid())
      && (native.token.AccessTokenObject? ==> tokenReads == if token == null then 0 else 1)
    }

    ghost predicate Unread()
      reads this
    {
      token == null && declinedPermissions.None? && grantedPermissions.None? && tokenReads == 0
    }

    constructor (native: NativeLoginResult)
      ensures this.native == native
      ensures Valid() && Unread()
    {
      this.native := native;
      token := null;
      declinedPermissions, grantedPermissions := None, None;
      declinedConversions, grantedConversions, tokenReads := 0, 0, 0;
    }

    /** `get declinedPermissions`. */
    method DeclinedPermissions() returns (r: seq<string>)
      requires Valid()
      modifies this`declinedPermissions, this`declinedConversions
      ensures Valid()
      ensures r == native.declinedPermissions.allObjects
      ensures declinedPermissions == Some(r) && declinedConversions == 1
      ensures old(declinedPermissions).Some? ==> r == old(declinedPermissions).value && declinedConversions == old(declinedConversions)
    {
      if declinedPermissions.None? {
        var converted := SetToArray(native.declinedPermissions);
        declinedPermissions := Some(converted);
        declinedConversions := declinedConversions + 1;
      }
      r := declinedPermissions.value;
    }

    /** `get grantedPermissions`. */
    method GrantedPermissions() returns (r: seq<string>)
      requires Valid()
      modifies this`grantedPermissions, this`grantedConversions
      ensures Valid()
      ensures r == native.grantedPermissions.allObjects
      ensures grantedPermissions == Some(r) && grantedConversions == 1
      ensures old(grantedPermissions).Some? ==> r == old(grantedPermissions).value && grantedConversions == old(grantedConversions)
    {
      if grantedPermissions.None? {
        var converted := SetToArray(native.grantedPermissions);
        grantedPermissions := Some(converted);
        grantedConversions := grantedConversions + 1;
      }
      r := grantedPermissions.value;
    }

    /**
     * `get token`: a wrapper for the native token, created on the first read
     * and returned afterwards. A nil native token gives null, which is not
     * cached, so every later read asks the native result again.
     */
    method Token() returns (t: AccessToken?)
      requires Valid()
      modifies this`token, this`tokenReads
      ensures Valid() && token == t
      ensures t != null <==> native.token.AccessTokenObject?
      ensures t != null ==> t.Valid() && t.native == native.token.accessToken
      ensures old(token) != null ==> t == old(token) && tokenReads == old(tokenReads)
      ensures old(token) == null ==> tokenReads == old(tokenReads) + 1
      ensures old(token) == null && t != null ==> fresh(t) && t.Valid() && t.Unread()
    {
      if token == null {
        token := AccessTokenFromNative(native.token);
        tokenReads := tokenReads + 1;
      }
      t := token;
    }
  }

  /** `LoginResult.fromNative`: a fresh wrapper for a native login result, null for anything else. */
  method LoginResultFromNative(loginResult: NativeRef) returns (result: LoginResult?)
    ensures result != null <==> loginResult.LoginResultObject?
    ensures result != null ==> fresh(result) && result.native == loginResult.loginResult && result.Valid() && result.Unread()
  {
    if loginResult.LoginResultObject? {
      result := new LoginResult(loginResult.loginResult);
    } else {
      result := null;
    }
  }
}
