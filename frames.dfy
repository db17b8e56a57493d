/** Hidden-frame provisioning (`addHiddenIFrame`, `loadFrame`) and the
    frame lookup by hash (`getIframeWithHash`). The document is reduced
    to its iframe elements in document order; an element handle is the
    element's position, which never changes because elements are only
    ever appended. */
module Frames {
  import opened Basics

  /** An iframe element: its `id` and `sandbox` attributes, its `src`
      attribute (`None` while absent), and what reading its content
      window's `location.hash` yields. */
  datatype Frame = Frame(id: string, sandbox: string, src: Option<string>, content: HashRead)

  /** A handle to an element: its position in document order. */
  type FrameRef = nat

  /** The element `addHiddenIFrame` creates: sandboxed to
      `allow-same-origin`, with no `src` yet, showing `about:blank`
      (whose fragment is empty). */
  function HiddenFrame(id: string): Frame
  {
    Frame(id, "allow-same-origin", None, SameOrigin(""))
  }

  /** `document.getElementById(id)`: the first element with that id. An
      empty `id` attribute gives an element no ID, so the empty id never
      matches. */
  function ElementById(frames: seq<Frame>, id: string): (r: Option<FrameRef>)
    ensures r.Some? ==> id != "" && r.value < |frames| && frames[r.value].id == id
    ensures r.Some? ==> forall j :: 0 <= j < r.value ==> frames[j].id != id
    ensures r.None? <==> id == "" || forall j :: 0 <= j < |frames| ==> frames[j].id != id
  {
    if id == "" then None else Find(frames, (f: Frame) => f.id == id)
  }

  /** At most one element per ID (elements with an empty `id` have none). */
  ghost predicate UniqueIds(frames: seq<Frame>)
  {
    forall i, j :: 0 <= i < j < |frames| && frames[i].id != "" ==> frames[i].id != frames[j].id
  }

  /** The document and the handle after `addHiddenIFrame`. */
  datatype Provisioned = Provisioned(frames: seq<Frame>, handle: Option<FrameRef>)

  /** `addHiddenIFrame(iframeId)`: no handle for an undefined id; the
      existing element when one has that id; otherwise a new hidden frame
      appended at the end of the body. */
  function Provision(frames: seq<Frame>, iframeId: Option<string>): (p: Provisioned)
    ensures iframeId.None? ==> p == Provisioned(frames, None)
    ensures iframeId.Some? ==> p.handle.Some? && p.handle.value < |p.frames| && p.frames[p.handle.value].id == iframeId.value
    ensures |frames| <= |p.frames| <= |frames| + 1 && p.frames[..|frames|] == frames
    ensures |p.frames| == |frames| + 1 ==> iframeId.Some? && p.frames[|frames|] == HiddenFrame(iframeId.value)
  {
    match iframeId
    case None => Provisioned(frames, None)
    case Some(id) =>
      match ElementById(frames, id)
      case Some(k) => Provisioned(frames, Some(k))
      case None => Provisioned(frames + [HiddenFrame(id)], Some(|frames|))
  }

  /** A non-empty id already in the document yields that element and adds
      nothing; the empty id, or an id not yet present, yields a new element
      at the end. */
  lemma ProvisionReusesOrAppends(frames: seq<Frame>, id: string)
    ensures id != "" && (exists j :: 0 <= j < |frames| && frames[j].id == id) ==>
      Provision(frames, Some(id)) == Provisioned(frames, ElementById(frames, id))
    ensures (id == "" || forall j :: 0 <= j < |frames| ==> frames[j].id != id) ==>
      Provision(frames, Some(id)) == Provisioned(frames + [HiddenFrame(id)], Some(|frames|))
  {
  }

  /** Two calls with the same non-empty id, or with an undefined one, give
      the same element, and the second changes nothing. */
  lemma ProvisionIdempotent(frames: seq<Frame>, iframeId: Option<string>)
    requires iframeId != Some("")
    ensures var p := Provision(frames, iframeId);
      Provision(p.frames, iframeId) == p
  {
  }

  /** The empty id is never found, so every call with it appends another
      hidden frame: two calls give two distinct elements. */
  lemma ProvisionEmptyIdAppends(frames: seq<Frame>)
    ensures var p := Provision(frames, Some(""));
      var q := Provision(p.frames, Some(""));
      p.handle == Some(|frames|) && q.handle == Some(|frames| + 1) &&
      q.frames == frames + [HiddenFrame(""), HiddenFrame("")]
  {
  }

  /** Provisioning never puts a second element with an existing id into
      the document. */
  lemma ProvisionKeepsIdsUnique(frames: seq<Frame>, iframeId: Option<string>)
    requires UniqueIds(frames)
    ensures UniqueIds(Provision(frames, iframeId).frames)
  {
  }

  /** `frameHandle.src === "" || frameHandle.src === "about:blank"`.
      Reading the `src` property yields the attribute resolved as a URL
      against the page's address: an absent attribute reads as `""`,
      `about:blank` reads as itself, and any other value, the empty one
      included, reads as an absolute URL of the page's origin, which is
      never blank. */
  predicate BlankSrc(src: Option<string>)
  {
    src.None? || src == Some("about:blank")
  }

  /** The rejection of `loadFrame` when no element could be obtained;
      its message names the requested frame. */
  datatype LoadError = UnableToLoadIframe(frameName: Option<string>)

  /** The document and the settled promise after `loadFrame`. */
  datatype Loaded = Loaded(frames: seq<Frame>, result: Result<FrameRef, LoadError>)

  /** `loadFrame(urlNavigate, frameName, ...)` once its delay has elapsed:
      obtain the element, navigate it if its source is blank, resolve with it. */
  function Load(frames: seq<Frame>, urlNavigate: string, frameName: Option<string>): (l: Loaded)
    ensures frameName.None? <==> l.result.Failure?
    ensures l.result.Failure? ==> l == Loaded(frames, Failure(UnableToLoadIframe(frameName)))
    ensures l.result.Success? ==> l.result.value < |l.frames| && l.frames[l.result.value].id == frameName.value
  {
    var p := Provision(frames, frameName);
    match p.handle
    case None => Loaded(p.frames, Failure(UnableToLoadIframe(frameName)))
    case Some(h) =>
      if BlankSrc(p.frames[h].src) then
        Loaded(p.frames[h := p.frames[h].(src := Some(urlNavigate))], Success(h))
      else
        Loaded(p.frames, Success(h))
  }

  /** `loadFrame` changes at most the `src` of the element it resolves
      with: it sets it to the URL exactly when it was blank, and otherwise
      leaves the document as provisioning left it. */
  lemma LoadNavigatesOnlyBlank(frames: seq<Frame>, urlNavigate: string, name: string)
    ensures var p := Provision(frames, Some(name));
      var l := Load(frames, urlNavigate, Some(name));
      var h := p.handle.value;
      l.result == Success(h) && |l.frames| == |p.frames| &&
      (forall j :: 0 <= j < |p.frames| && j != h ==> l.frames[j] == p.frames[j]) &&
      (BlankSrc(p.frames[h].src) ==> l.frames[h] == p.frames[h].(src := Some(urlNavigate))) &&
      (!BlankSrc(p.frames[h].src) ==> l.frames[h] == p.frames[h])
  {
  }

  /** No element of the document whose source is already set to a
      non-blank value is ever renavigated by `loadFrame`. */
  lemma LoadNeverOverwrites(frames: seq<Frame>, urlNavigate: string, frameName: Option<string>, j: nat)
    requires j < |frames| && !BlankSrc(frames[j].src)
    ensures j < |Load(frames, urlNavigate, frameName).frames|
    ensures Load(frames, urlNavigate, frameName).frames[j] == frames[j]
  {
  }

  /** A fresh frame is always navigated: loading under a new id appends
      one hidden frame whose source is the URL. */
  lemma LoadNewFrame(frames: seq<Frame>, urlNavigate: string, name: string)
    requires name == "" || forall j :: 0 <= j < |frames| ==> frames[j].id != name
    ensures Load(frames, urlNavigate, Some(name)) ==
      Loaded(frames + [HiddenFrame(name).(src := Some(urlNavigate))], Success(|frames|))
  {
  }

  /** Navigating a frame to the empty URL still sets its attribute, so the
      frame no longer reads as blank and a later load under the same name
      resolves with it and leaves it alone. */
  lemma LoadEmptyUrlIsFinal(frames: seq<Frame>, name: string, url: string)
    requires name != "" && forall j :: 0 <= j < |frames| ==> frames[j].id != name
    ensures var l := Load(frames, "", Some(name));
      Load(l.frames, url, Some(name)) == Loaded(l.frames, Success(|frames|))
  {
  }

  /** The page's document, as far as the frame utilities see it. */
  class Document {
    var frames: seq<Frame>

    constructor (frames: seq<Frame>)
      ensures this.frames == frames
    {
      this.frames := frames;
    }

    /** `addHiddenIFrame(iframeId, logger)`. */
    method AddHiddenIFrame(iframeId: Option<string>) returns (handle: Option<FrameRef>)
      modifies this
      ensures Provisioned(frames, handle) == Provision(old(frames), iframeId)
    {
      if iframeId.None? {
        return None;
      }
      var id := iframeId.value;
      handle := ElementById(frames, id);
      assert handle.Some? ==> id != "";
      if handle.None? {
        frames := frames + [HiddenFrame(id)];
        handle := Some(|frames| - 1);
      }
    }

    /** `loadFrame(urlNavigate, frameName, timeoutMs, logger)`, from the
        moment its timer fires. */
    method LoadFrame(urlNavigate: string, frameName: Option<string>) returns (result: Result<FrameRef, LoadError>)
      modifies this
      ensures Loaded(frames, result) == Load(old(frames), urlNavigate, frameName)
    {
      var frameHandle := AddHiddenIFrame(frameName);
      if frameHandle.None? {
        return Failure(UnableToLoadIframe(frameName));
      }
      var h := frameHandle.value;
      if BlankSrc(frames[h].src) {
        frames := frames[h := frames[h].(src := Some(urlNavigate))];
      }
      result := Success(h);
    }

    /** `getIframeWithHash(hash)`: the first iframe, in document order,
        whose content window is readable and shows that fragment;
        unreadable content windows are skipped. */
    function IframeWithHash(hash: string): (r: Option<FrameRef>)
      reads this
      ensures r.Some? ==> r.value < |frames| && frames[r.value].content == SameOrigin(hash)
      ensures r.Some? ==> forall j :: 0 <= j < r.value ==> !HashMatches(frames[j].content, hash)
      ensures r.None? <==> forall j :: 0 <= j < |frames| ==> !HashMatches(frames[j].content, hash)
    {
      Find(frames, (f: Frame) => HashMatches(f.content, hash))
    }
  }
}
