/** The popup registry (`getPopups`, `trackPopup`, `getPopUpWithHash`,
    `closePopups`): the page-wide list `window.openedWindows` of the
    popups the library opened, created on first use. */
module Popups {
  import opened Basics

  /** A popup window as the registry sees it: whether it is closed and
      what reading its `location.hash` yields right now. */
  class Window {
    var closed: bool
    var location: HashRead

    constructor (location: HashRead)
      ensures !closed && this.location == location
    {
      closed := false;
      this.location := location;
    }

    /** `window.close()`. */
    method Close()
      modifies this
      ensures closed && location == old(location)
    {
      closed := true;
    }
  }

  /** What reading `location.hash` yields for each window, in order. */
  function Locations(ws: seq<Window>): (r: seq<HashRead>)
    reads ws
    ensures |r| == |ws| && forall i :: 0 <= i < |ws| ==> r[i] == ws[i].location
  {
    if |ws| == 0 then [] else [ws[0].location] + Locations(ws[1..])
  }

  /** The `find` of `getPopUpWithHash`: the position of the first window
      whose location is readable and shows that fragment; a window whose
      location cannot be read counts as no match instead of failing. */
  function FirstWithHash(ws: seq<Window>, hash: string): (r: Option<nat>)
    reads ws
    ensures r.Some? ==> r.value < |ws| && ws[r.value].location == SameOrigin(hash)
    ensures r.Some? ==> forall j :: 0 <= j < r.value ==> !HashMatches(ws[j].location, hash)
    ensures r.None? <==> forall j :: 0 <= j < |ws| ==> !HashMatches(ws[j].location, hash)
  {
    Find(Locations(ws), (l: HashRead) => HashMatches(l, hash))
  }

  class PopupRegistry {
    /** `window.openedWindows`: undefined until first used. */
    var openedWindows: Option<seq<Window>>

    /** A page on which no popup has been tracked yet. */
    constructor ()
      ensures openedWindows == None
    {
      openedWindows := None;
    }

    /** The tracked popups, in the order they were tracked. */
    function Tracked(): seq<Window>
      reads this
    {
      if openedWindows.Some? then openedWindows.value else []
    }

    /** `getPopups()`: creates the list if needed and returns it. */
    method GetPopups() returns (popups: seq<Window>)
      modifies this
      ensures popups == old(Tracked())
      ensures openedWindows == Some(popups)
    {
      if openedWindows.None? {
        openedWindows := Some([]);
      }
      popups := openedWindows.value;
    }

    /** `trackPopup(popup)`: appends to the list, never deduplicating. */
    method TrackPopup(popup: Window)
      modifies this
      ensures openedWindows == Some(old(Tracked()) + [popup])
    {
      var popups := GetPopups();
      openedWindows := Some(popups + [popup]);
    }

    /** `getPopUpWithHash(hash)`: the popup `FirstWithHash` picks among
        the tracked ones; `None` stands for `undefined`. */
    function PopUpWithHash(hash: string): (r: Option<Window>)
      reads this, Tracked()
      ensures r.Some? <==> exists k :: 0 <= k < |Tracked()| && HashMatches(Tracked()[k].location, hash)
      ensures r.Some? ==> r.value.location == SameOrigin(hash)
      ensures r.Some? ==> (exists k :: 0 <= k < |Tracked()| && Tracked()[k] == r.value &&
                                     forall j :: 0 <= j < k ==> !HashMatches(Tracked()[j].location, hash))
    {
      var ps := Tracked();
      match FirstWithHash(ps, hash)
      case None => None
      case Some(k) => Some(ps[k])
    }

    /** `closePopups()`: closes every tracked popup and keeps them all in
        the list. */
    method ClosePopups()
      modifies this, Tracked()
      ensures openedWindows == Some(old(Tracked()))
      ensures forall w :: w in Tracked() ==> w.closed
      ensures forall w :: w in Tracked() ==> w.location == old(w.location)
    {
      var popups := GetPopups();
      for i := 0 to |popups|
        invariant openedWindows == Some(popups)
        invariant forall j :: 0 <= j < i ==> popups[j].closed
        invariant forall w :: w in popups ==> w.location == old(w.location)
      {
        popups[i].Close();
      }
    }
  }

  /** Tracking a popup never changes which earlier popup a lookup finds;
      it can only make the lookup find the new one, when nothing earlier
      matched and the new one shows the fragment. */
  lemma TrackedLookup(popups: seq<Window>, popup: Window, hash: string)
    ensures FirstWithHash(popups + [popup], hash) ==
      if FirstWithHash(popups, hash).Some? then FirstWithHash(popups, hash)
      else if HashMatches(popup.location, hash) then Some(|popups|)
      else None
  {
    assert Locations(popups + [popup]) == Locations(popups) + [popup.location];
    FindAppend(Locations(popups), popup.location, (l: HashRead) => HashMatches(l, hash));
  }
}
