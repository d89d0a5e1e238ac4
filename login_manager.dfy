/**
 * `LoginManager`: the process-wide login state of the iOS binding. The static
 * `#native` handle, the module-level `appDelegateInitialized` latch and the
 * module-level `appDelegate` singleton are the fields of one object, created
 * when the module is loaded.
 */
module Login {
  import opened Wrappers
  import opened Native
  import opened Facebook

  /** An `FBSDKLoginManager` created by the binding. */
  class NativeLoginManager {
    constructor () {}
  }

  /** A `FacebookAppDelegateImpl`, the object that forwards URL callbacks to the SDK. */
  class AppDelegateInterceptor {
    constructor () {}
  }

  class LoginManager {
    /** `LoginManager.#native`. */
    var native: NativeLoginManager?
    /** The module-level `appDelegateInitialized` latch. */
    var appDelegateInitialized: bool
    /** The module-level `appDelegate` behind `FacebookAppDelegateImpl.sharedInstance`. */
    var appDelegate: AppDelegateInterceptor?
    /** The interceptors registered with the app delegate swizzler, in order. */
    var interceptors: seq<AppDelegateInterceptor>
    /** How many native managers have been created. */
    ghost var managersConstructed: nat
    /** How many times the original app delegate has been proxied. */
    ghost var delegateProxies: nat

    /**
     * At most one native manager exists, and the delegate is proxied and the
     * shared interceptor registered once exactly when the latch is set.
     */
    ghost predicate Valid()
      reads this
    {
      && managersConstructed == (if native == null then 0 else 1)
      && (appDelegateInitialized ==>
            appDelegate != null && interceptors == [appDelegate] && delegateProxies == 1)
      && (!appDelegateInitialized ==> interceptors == [] && delegateProxies == 0)
    }

    /** The state when the module is loaded. */
    constructor ()
      ensures Valid()
      ensures native == null && !appDelegateInitialized && appDelegate == null
    {
      native := null;
      appDelegateInitialized := false;
      appDelegate := null;
      interceptors := [];
      managersConstructed, delegateProxies := 0, 0;
    }

    /** `FacebookAppDelegateImpl.sharedInstance`: created on first use, the same object afterwards. */
    method SharedAppDelegate() returns (d: AppDelegateInterceptor)
      modifies this`appDelegate
      ensures old(Valid()) ==> Valid()
      ensures appDelegate == d
      ensures old(appDelegate) != null ==> d == old(appDelegate)
      ensures old(appDelegate) == null ==> fresh(d)
    {
      if appDelegate == null {
        appDelegate := new AppDelegateInterceptor();
      }
      d := appDelegate;
    }

    /**
     * `LoginManager.init`: idempotent. From any reachable state, afterwards one
     * native manager exists, the delegate has been proxied once and one
     * interceptor is registered; a second call changes nothing.
     */
    method Init()
      requires Valid()
      modifies this
      ensures Valid()
      ensures native != null && appDelegateInitialized
      ensures managersConstructed == 1 && delegateProxies == 1 && |interceptors| == 1
      ensures old(native) != null ==> native == old(native)
      ensures old(native) == null ==> fresh(native)
      ensures old(appDelegate) != null ==> appDelegate == old(appDelegate)
      ensures old(appDelegate) == null ==> fresh(appDelegate)
      ensures old(appDelegateInitialized) ==> interceptors == old(interceptors)
      ensures old(native) != null && old(appDelegateInitialized) ==> unchanged(this)
    {
      if native == null {
        native := new NativeLoginManager();
        managersConstructed := managersConstructed + 1;
      }
      if !appDelegateInitialized {
        delegateProxies := delegateProxies + 1;
        var d := SharedAppDelegate();
        interceptors := interceptors + [d];
        appDelegateInitialized := true;
      }
    }
  }

  /** How the promise returned by `logInWithPermissions` settles. */
  datatype LoginOutcome =
    | Resolved(result: LoginResult?)
    | Rejected(error: FacebookError)

  /**
   * The completion handler of `logInWithPermissions`: a rejection exactly when
   * the SDK reports an error, carrying that error's description; otherwise the
   * result is wrapped, or null when the SDK handed back no login result.
   */
  method CompleteLogin(result: NativeRef, error: Option<NativeError>) returns (outcome: LoginOutcome)
    ensures outcome.Rejected? <==> error.Some?
    ensures outcome.Rejected? ==>
      outcome.error.native == error && outcome.error.message == error.value.localizedDescription
    ensures outcome.Resolved? ==> (outcome.result != null <==> result.LoginResultObject?)
    ensures outcome.Resolved? && outcome.result != null ==>
      fresh(outcome.result) && outcome.result.native == result.loginResult
      && outcome.result.Valid() && outcome.result.Unread()
  {
    if error.Some? {
      outcome := Rejected(FacebookErrorFromNative(error, None));
    } else {
      var wrapped := LoginResultFromNative(result);
      outcome := Resolved(wrapped);
    }
  }

  /**
   * Two calls of `init` in a row, as an app that initialises twice does.
   * `first` and `registered` are the manager and the registrations the first
   * call leaves; the second call keeps both.
   */
  method InitTwice(manager: LoginManager)
    returns (ghost first: NativeLoginManager, ghost registered: seq<AppDelegateInterceptor>)
    requires manager.Valid()
    modifies manager
    ensures manager.Valid()
    ensures manager.managersConstructed == 1 && manager.delegateProxies == 1
    ensures |registered| == 1
    ensures old(manager.native) != null ==> first == old(manager.native)
    ensures old(manager.appDelegateInitialized) ==> registered == old(manager.interceptors)
    ensures manager.native == first && manager.interceptors == registered
  {
    manager.Init();
    first, registered := manager.native, manager.interceptors;
    manager.Init();
  }
}
