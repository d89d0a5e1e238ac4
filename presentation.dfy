/**
 * The presentation context that the login flow is launched from: starting at
 * the key window's root view controller, follow the presented controller if
 * there is one, otherwise the container's active child (split view: last
 * child; navigation: top of the stack; tab bar: selected tab), and stop at a
 * controller that offers no further step.
 *
 * The UIKit hierarchy is a finite tree of values here; the runtime class test
 * (`instanceof UISplitViewController`, ...) becomes the constructor of
 * `Controller`.
 */
module Presentation {
  import opened Wrappers

  /** A view controller, tagged by the UIKit container class it is an instance of. */
  datatype Controller =
    | Plain(presented: Option<Controller>)
    | SplitView(presented: Option<Controller>, viewControllers: seq<Controller>)
      /** `viewControllers` is the navigation stack; its last element is `topViewController`. */
    | Navigation(presented: Option<Controller>, viewControllers: seq<Controller>)
    | TabBar(presented: Option<Controller>, selected: Option<Controller>)

  /** The key window; `rootViewController` may be unset. */
  datatype Window = Window(rootViewController: Option<Controller>)

  /** `NSArray.lastObject`: the last element, or nil for an empty array. */
  function LastObject(cs: seq<Controller>): Option<Controller>
  {
    if cs == [] then None else Some(cs[|cs| - 1])
  }

  /** The child a container shows: none for a controller that is not one of the three containers. */
  function ActiveChild(c: Controller): Option<Controller>
  {
    match c
    case Plain(_) => None
    case SplitView(_, vcs) => LastObject(vcs)
    case Navigation(_, vcs) => LastObject(vcs)
    case TabBar(_, sel) => sel
  }

  /** The next controller the walk moves to: the presented one wins over the active child. */
  function Next(c: Controller): Option<Controller>
  {
    if c.presented.Some? then c.presented else ActiveChild(c)
  }

  /** A controller at which the walk stops. */
  predicate IsTop(c: Controller)
  {
    c.presented.None? && ActiveChild(c).None?
  }

  /** `to` is `from` or lies on the walk that starts at `from`. */
  ghost predicate Reaches(from: Controller, to: Controller)
    decreases from
  {
    from == to || (Next(from).Some? && Reaches(Next(from).value, to))
  }

  /**
   * `LoginManager.findTopViewController`. The result is a controller the walk
   * stops at, and it lies on the walk from `root`.
   */
  function FindTop(root: Controller): (top: Controller)
    ensures top.presented.None?
    ensures ActiveChild(top).None?
    ensures Reaches(root, top)
    decreases root
  {
    if root.presented.Some? then
      FindTop(root.presented.value)
    else
      match root
      case SplitView(_, vcs) =>
        var last := LastObject(vcs);
        if last.None? then root else FindTop(last.value)
      case Navigation(_, vcs) =>
        var top := LastObject(vcs);
        if top.None? then root else FindTop(top.value)
      case TabBar(_, sel) =>
        if sel.None? then root else FindTop(sel.value)
      case Plain(_) =>
        root
  }

  /** `LoginManager.rootViewController`: undefined when there is no key window. */
  function RootViewController(keyWindow: Option<Window>): (root: Option<Controller>)
    ensures root.Some? <==> keyWindow.Some? && keyWindow.value.rootViewController.Some?
    ensures root.Some? ==> root == keyWindow.value.rootViewController
  {
    if keyWindow.Some? then keyWindow.value.rootViewController else None
  }

  /**
   * `LoginManager.topViewController`: undefined exactly when there is no key
   * window or it has no root view controller; otherwise a controller the walk
   * stops at, on the walk from the root.
   */
  function TopViewController(keyWindow: Option<Window>): (top: Option<Controller>)
    ensures top.None? <==> keyWindow.None? || keyWindow.value.rootViewController.None?
    ensures top.Some? ==> IsTop(top.value) && Reaches(keyWindow.value.rootViewController.value, top.value)
  {
    var root := RootViewController(keyWindow);
    if root.None? then None else Some(FindTop(root.value))
  }

  /** One step of the walk does not change where it ends. */
  lemma FindTopFollowsNext(c: Controller)
    ensures Next(c).None? ==> FindTop(c) == c
    ensures Next(c).Some? ==> FindTop(c) == FindTop(Next(c).value)
  {
  }

  /** A presented controller decides the result, whatever kind of container presents it. */
  lemma PresentedWins(c: Controller)
    requires c.presented.Some?
    ensures FindTop(c) == FindTop(c.presented.value)
  {
  }

  /** A split, navigation or tab-bar container with no active child and nothing presented resolves to itself. */
  lemma EmptyContainerIsTop(c: Controller)
    requires !c.Plain? && c.presented.None? && ActiveChild(c).None?
    ensures FindTop(c) == c
  {
  }

  /** A controller that is not a container and presents nothing resolves to itself. */
  lemma PlainIsTop(c: Controller)
    requires c.Plain? && c.presented.None?
    ensures FindTop(c) == c
  {
  }

  /**
   * The walk has exactly one end: `FindTop(root)` is the one controller that
   * lies on the walk from `root` and at which the walk stops.
   */
  lemma {:induction false} FindTopCharacterized(root: Controller, t: Controller)
    ensures FindTop(root) == t <==> Reaches(root, t) && IsTop(t)
    decreases root
  {
    if Reaches(root, t) && IsTop(t) {
      FindTopFollowsNext(root);
      if root != t {
        FindTopCharacterized(Next(root).value, t);
      }
    }
  }

  /** Resolving an already resolved controller gives it back. */
  lemma FindTopIdempotent(c: Controller)
    ensures FindTop(FindTop(c)) == FindTop(c)
  {
    FindTopFollowsNext(FindTop(c));
  }

  /** `hosts[0]` presents `hosts[1]`, which presents ..., which presents `deepest`. */
  function PresentAll(hosts: seq<Controller>, deepest: Controller): Controller
    decreases |hosts|
  {
    if hosts == [] then deepest
    else hosts[0].(presented := Some(PresentAll(hosts[1..], deepest)))
  }

  /** A chain of presented controllers of any depth resolves as its deepest controller does. */
  lemma {:induction false} PresentedChainResolves(hosts: seq<Controller>, deepest: Controller)
    ensures FindTop(PresentAll(hosts, deepest)) == FindTop(deepest)
    decreases |hosts|
  {
    if hosts != [] {
      PresentedChainResolves(hosts[1..], deepest);
    }
  }

  /** In particular, when the deepest presented controller stops the walk, it is the result. */
  lemma DeepestPresentedIsTop(hosts: seq<Controller>, deepest: Controller)
    requires IsTop(deepest)
    ensures FindTop(PresentAll(hosts, deepest)) == deepest
  {
    PresentedChainResolves(hosts, deepest);
    FindTopFollowsNext(deepest);
  }

  /** A tab bar that presents nothing resolves to its selected tab when that tab stops the walk. */
  lemma TabBarResolvesToSelected(selected: Controller)
    requires IsTop(selected)
    ensures FindTop(TabBar(None, Some(selected))) == selected
  {
  }
}
