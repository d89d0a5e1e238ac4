/**
 * The values the binding receives from the native Facebook iOS SDK and from
 * Foundation, seen from the outside: only the fields the binding reads.
 */
module Native {

  datatype NativeSet<T> = NativeSet(allObjects: seq<T>, count: nat)

  /**
   * `NSSet`: `allObjects` lists each member once, in an order Foundation
   * chooses, and `count` is the number of members.
   */
  type NSSet<T(==)> = s: NativeSet<T> | s.count == |s.allObjects| && Distinct(s.allObjects)
    witness NativeSet([], 0)

  predicate Distinct<T(==)>(xs: seq<T>)
  {
    forall i, j :: 0 <= i < j < |xs| ==> xs[i] != xs[j]
  }

  /** `FBSDKAccessToken`: the three permission sets the binding converts. */
  datatype NativeAccessToken = NativeAccessToken(
    permissions: NSSet<string>,
    declinedPermissions: NSSet<string>,
    expiredPermissions: NSSet<string>)

  /** `FBSDKLoginManagerLoginResult`; `token` may be nil. */
  datatype NativeLoginResult = NativeLoginResult(
    isCancelled: bool,
    token: NativeRef,
    grantedPermissions: NSSet<string>,
    declinedPermissions: NSSet<string>)

  /** `NSError`. */
  datatype NativeError = NativeError(localizedDescription: string)

  /** A reference handed over from native code: nil, or an object of one of these classes. */
  datatype NativeRef =
    | Nil
    | AccessTokenObject(accessToken: NativeAccessToken)
    | LoginResultObject(loginResult: NativeLoginResult)
    | OtherObject
}
