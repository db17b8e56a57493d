/** The embedding classifier (`isInIframe`, `isWindowOnTop`, `isInPopup`)
    and the navigation dispatcher (`navigateWindow`, `navigateHelper`).
    The browser's window references are replaced by an explicit embedding
    context, and navigating or posting a message becomes an action value. */
module Navigation {
  import opened Basics

  /** Identity of a browsing context (what `===` compares on windows). */
  type WindowRef = nat

  /** The current page's browsing context: itself, the chain of frames
      that contain it (nearest first, the top-level window last) and the
      window that opened it, if any. */
  datatype Embedding = Embedding(self: WindowRef, ancestors: seq<WindowRef>, opener: Option<WindowRef>)

  /** A browsing context is never its own ancestor and occurs once in its chain. */
  ghost predicate WellFormed(e: Embedding)
  {
    e.self !in e.ancestors &&
    forall i, j :: 0 <= i < j < |e.ancestors| ==> e.ancestors[i] != e.ancestors[j]
  }

  /** `window.parent`: a top-level window is its own parent. */
  function Parent(e: Embedding): WindowRef
  {
    if |e.ancestors| == 0 then e.self else e.ancestors[0]
  }

  /** `window.top`: a top-level window is its own top. */
  function Top(e: Embedding): WindowRef
  {
    if |e.ancestors| == 0 then e.self else e.ancestors[|e.ancestors| - 1]
  }

  /** `window.parent !== window`. */
  function IsInIframe(e: Embedding): (r: bool)
    ensures WellFormed(e) ==> (r <==> |e.ancestors| > 0)
  {
    Parent(e) != e.self
  }

  /** `window.top === window`. */
  function IsWindowOnTop(e: Embedding): (r: bool)
    ensures WellFormed(e) ==> (r <==> |e.ancestors| == 0)
  {
    Top(e) == e.self
  }

  /** The two checks compare against different windows, yet in a
      well-formed embedding they are exact complements. */
  lemma OnTopIffNotInIframe(e: Embedding)
    requires WellFormed(e)
    ensures IsWindowOnTop(e) <==> !IsInIframe(e)
  {
  }

  /** `!!(window.opener && window.opener !== window)`. */
  function IsInPopup(e: Embedding): (r: bool)
    ensures e.opener.None? ==> !r
    ensures e.opener == Some(e.self) ==> !r
    ensures e.opener.Some? && e.opener.value != e.self ==> r
  {
    e.opener.Some? && e.opener.value != e.self
  }

  /** The error raised for an empty navigation URL (`createUnexpectedError`). */
  datatype NavigationError = NavigateUrlIsEmpty

  /** What a navigation request does: post a redirect-delegation message to
      the top frame, replace the location of a window, or throw. */
  datatype Action =
    | Delegate(url: string, topFrameOrigin: Option<string>)
    | Navigate(target: WindowRef, url: string)
    | Throw(error: NavigationError)

  /** `StringUtils.isEmpty` on a defined string. */
  predicate IsEmptyUrl(url: string)
  {
    |url| == 0
  }

  /** `navigateWindow(urlNavigate, logger, popupWindow?)`, run in the
      window `self`. */
  function NavigateWindow(self: WindowRef, url: string, popup: Option<WindowRef>): (a: Action)
    ensures IsEmptyUrl(url) <==> a == Throw(NavigateUrlIsEmpty)
    ensures !IsEmptyUrl(url) && popup.Some? ==> a == Navigate(popup.value, url)
    ensures !IsEmptyUrl(url) && popup.None? ==> a == Navigate(self, url)
    ensures !a.Delegate?
  {
    if !IsEmptyUrl(url) then
      var target := if popup.Some? then popup.value else self;
      Navigate(target, url)
    else
      Throw(NavigateUrlIsEmpty)
  }

  /** `navigateHelper(popUpWindow, urlNavigate, messageCache, logger, topFrameOrigin?)`. */
  function NavigateHelper(e: Embedding, popup: Option<WindowRef>, url: string, topFrameOrigin: Option<string>): (a: Action)
    ensures a.Delegate? <==> IsInIframe(e) && popup.None?
    ensures a.Delegate? ==> a == Delegate(url, topFrameOrigin)
    ensures !a.Delegate? ==> a == NavigateWindow(e.self, url, popup)
  {
    if IsInIframe(e) && popup.None? then
      Delegate(url, topFrameOrigin)
    else
      NavigateWindow(e.self, url, popup)
  }

  /** Delegation happens only from inside a frame and without a popup, and
      a popup, when given, is always the window navigated; an empty URL
      throws on the direct path only. */
  lemma NavigateHelperOutcomes(e: Embedding, popup: Option<WindowRef>, url: string, topFrameOrigin: Option<string>)
    requires WellFormed(e)
    ensures NavigateHelper(e, popup, url, topFrameOrigin).Delegate? <==> |e.ancestors| > 0 && popup.None?
    ensures popup.Some? && !IsEmptyUrl(url) ==> NavigateHelper(e, popup, url, topFrameOrigin) == Navigate(popup.value, url)
    ensures |e.ancestors| == 0 && popup.None? && !IsEmptyUrl(url) ==> NavigateHelper(e, popup, url, topFrameOrigin) == Navigate(e.self, url)
    ensures NavigateHelper(e, popup, url, topFrameOrigin) == Throw(NavigateUrlIsEmpty) <==> IsEmptyUrl(url) && !(|e.ancestors| > 0 && popup.None?)
  {
  }
}
