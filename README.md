# Facebook login binding for iOS, modelled in Dafny

This project models the logic of the iOS side of a Facebook-login plugin for a
cross-platform mobile framework (`packages/facebook/index.ios.ts`). The plugin
wraps the native Facebook SDK. Almost all of it forwards to native objects. The
parts with logic of their own are modelled here:

- **Presentation context** (`presentation.dfy`, module `Presentation`). The
  login screen is launched from the "top" view controller. The walk starts at
  the key window's root view controller. A presented controller always wins.
  Otherwise the walk follows the container's active child: the last child of a
  split view, the top of a navigation stack, the selected tab of a tab bar. It
  stops at a controller that offers no further step. The UIKit hierarchy is a
  finite tree of values (`Controller`), and the runtime class test becomes the
  constructor of that datatype. `FindTop` is proved to stop at a controller
  with nothing presented and no active child, on the walk from the root. It is
  also proved to be the *only* such controller (`FindTopCharacterized`).
- **`setToArray`** (`facebook.dfy`). It copies a native `NSSet` into an array
  with a loop. `NSSet` is a subset type: `count` equals the length of
  `allObjects`, and no member is listed twice.
- **`FacebookError.fromNative`**: how the error message is chosen.
- **`AccessToken` and `LoginResult`**: classes whose permission getters fill a
  cache field on first read and return it afterwards. A ghost counter per cache
  records how often the native set was converted. The `Valid()` invariant
  keeps each counter at most 1 and keeps the cache equal to the native set's
  contents.
- **`LoginManager.init`** (`login_manager.dfy`, module `Login`). The static
  `#native` handle and the module-level `appDelegateInitialized` latch and
  `appDelegate` singleton become fields of one `LoginManager` object. Its
  constructor is the state at module load. `Init` is proved idempotent: from any
  state satisfying `Valid()`, one native manager exists afterwards, and the
  delegate has been proxied and the interceptor registered exactly once.
- **Completion handler of `logInWithPermissions`**: the promise rejects
  exactly when the SDK reports an error.

JavaScript truthiness is modelled where it matters:

- An empty array is truthy, so an empty permission array stays cached.
- A `null` token wrapper is falsy, so `LoginResult.token` reads the native
  token again on every call while that token is nil.
- `message || native?.localizedDescription` treats an empty message as absent.
- `new Error(undefined)` has the empty message.

## Model

| member | source | states |
|---|---|---|
| Presentation.FindTop | packages/facebook/index.ios.ts:230-256 | the resolved controller has no presented controller and no active child, and it lies on the presented/active-child walk from the root |
| Presentation.RootViewController | packages/facebook/index.ios.ts:225-228 | defined exactly when there is a key window with a root view controller, and then it is that controller |
| Presentation.TopViewController | packages/facebook/index.ios.ts:217-223 | undefined exactly when there is no key window or no root view controller; otherwise a controller where the walk stops, reached from the root |
| Presentation.FindTopFollowsNext | packages/facebook/index.ios.ts:230-256 | one step of the walk (presented first, else active child) does not change the result; with no step the controller is its own result |
| Presentation.PresentedWins | packages/facebook/index.ios.ts:231-234 | a presented controller decides the result whatever the container kind |
| Presentation.EmptyContainerIsTop | packages/facebook/index.ios.ts:235-252 | a split, navigation or tab-bar container with no last child, top or selected tab, and nothing presented, resolves to itself |
| Presentation.PlainIsTop | packages/facebook/index.ios.ts:253-255 | a controller that is not a container and presents nothing resolves to itself |
| Presentation.FindTopCharacterized | packages/facebook/index.ios.ts:230-256 | the result is t if and only if t is on the walk from the root and the walk stops at t |
| Presentation.FindTopIdempotent | packages/facebook/index.ios.ts:230-256 | resolving a resolved controller gives it back |
| Presentation.PresentedChainResolves | packages/facebook/index.ios.ts:231-234 | a chain of presented controllers of any depth, over containers of any kind, resolves as its deepest controller does |
| Presentation.DeepestPresentedIsTop | packages/facebook/index.ios.ts:231-234 | when the deepest presented controller stops the walk, the chain resolves to it |
| Presentation.TabBarResolvesToSelected | packages/facebook/index.ios.ts:247-252 | a tab bar presenting nothing resolves to its selected tab when that tab stops the walk |
| Facebook.SetToArray | packages/facebook/index.ios.ts:3-11 | the array has `count` elements, element i is `allObjects[i]`, and it lists each member of the set exactly once |
| Facebook.FacebookErrorFromNative | packages/facebook/index.ios.ts:15-19 | keeps the native error; a non-empty message wins, otherwise the native description; the message is empty exactly when neither supplies text |
| Facebook.AccessToken.constructor | packages/facebook/index.ios.ts:57-58 | a new wrapper holds the native token and has read nothing |
| Facebook.AccessToken.DeclinedPermissions | packages/facebook/index.ios.ts:76-81 | returns the native declined set's contents; the first read converts once and caches, later reads return the cache without converting |
| Facebook.AccessToken.ExpiredPermissions | packages/facebook/index.ios.ts:91-96 | the same memoisation for the expired permissions |
| Facebook.AccessToken.Permissions | packages/facebook/index.ios.ts:102-107 | the same memoisation for the granted permissions of the token |
| Facebook.AccessTokenFromNative | packages/facebook/index.ios.ts:55-62 | a fresh, unread wrapper exactly when the input is a native access token; null for nil or another class |
| Facebook.LoginResult.constructor | packages/facebook/index.ios.ts:146-147 | a new wrapper holds the native result and has read nothing |
| Facebook.LoginResult.DeclinedPermissions | packages/facebook/index.ios.ts:153-158 | memoised conversion of the declined permissions: converted once, then returned from the cache |
| Facebook.LoginResult.GrantedPermissions | packages/facebook/index.ios.ts:160-165 | memoised conversion of the granted permissions: converted once, then returned from the cache |
| Facebook.LoginResult.Token | packages/facebook/index.ios.ts:171-176 | non-null exactly when the native token exists, and then a valid wrapper of that token; the first non-null wrapper is created fresh and returned on every later read; a nil native token is read again on each call |
| Facebook.LoginResultFromNative | packages/facebook/index.ios.ts:144-151 | a fresh, unread wrapper exactly when the input is a native login result; null otherwise |
| Login.LoginManager.constructor | packages/facebook/index.ios.ts:26-27 | at module load there is no native manager, the latch is clear and no interceptor is registered |
| Login.LoginManager.SharedAppDelegate | packages/facebook/index.ios.ts:31-36 | the shared interceptor is created on first use and the same object is returned afterwards |
| Login.LoginManager.Init | packages/facebook/index.ios.ts:189-199 | afterwards exactly one native manager exists, the delegate was proxied once and one interceptor is registered; an existing manager, shared interceptor and registration are kept, a missing manager or shared interceptor is created fresh, and on an initialised manager nothing changes |
| Login.InitTwice | packages/facebook/index.ios.ts:189-199 | two calls leave one manager, one proxy and one interceptor; the manager and registrations the first call leaves (returned as ghost results) are the ones present after the second call |
| Login.CompleteLogin | packages/facebook/index.ios.ts:203-209 | rejects exactly when the SDK reports an error, with that error's description; otherwise resolves with a wrapper that is non-null exactly when a native login result came back |

## Left out

- `FacebookAppDelegateImpl` URL and launch callbacks (lines 38-47): they only forward to the SDK's application delegate. Only its shared-instance creation is modelled.
- The app delegate swizzler is an external library. Its effect is modelled as a list of registered interceptors and a count of proxy calls. The swizzling itself is not modelled.
- `logInWithPermissions` apart from its completion handler: the native login flow, the view controller handed to it, and the promise machinery are native or runtime code.
- `logout`: a single forwarding call to the native manager.
- Scalar and date getters (`appID`, `expirationDate`, `tokenString`, `isCancelled`, `native`, `ios`, ...): one-line reads of native fields.
- `AccessToken.currentAccessToken` and `currentAccessTokenIsActive`: reads of an SDK global. The first is `AccessTokenFromNative` applied to that global.
- Permission getters: JavaScript returns the same array object on every read, so a caller that mutates it changes what later reads see. Arrays are sequence values here, so that aliasing is not modelled. "Same array" is stated as equality.
- Direct construction of `AccessToken` or `LoginResult` without a native object (`new AccessToken()`) is not modelled. Such a wrapper has no native object: each getter that reads a field of the native object throws, while `native` and `ios` return undefined. The model's constructors always take the native object, as `fromNative` supplies it.
- The view-controller hierarchy is a finite tree. A cyclic presentation chain, which UIKit does not produce, is not modelled.
- The demo application's list of plugin names (`apps/demo-angular/src/home.component.ts`) has no behaviour.
