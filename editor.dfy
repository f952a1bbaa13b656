/**
 * The `EditorCore` class: a hidden video element, an optional preview element
 * that mirrors it, an off-screen canvas, the loaded metadata, the playing flag,
 * the playback callback and the timeline store.
 *
 * Browser events are explicit steps: `FireLoadedMetadata` and `FireLoadError`
 * for the handlers `loadVideo` installs, `FireSeeked` for the seek
 * handler `extractFrame` installs, and `FireTimeUpdate` and `FireEnded` for the
 * listeners the constructor registers. `AdvancePlayback` is the browser moving
 * the position while the video plays.
 */
module Editor {
  import opened Wrappers
  import opened Clips

  /** The frame rate every loaded video is given; it is not read from the video. */
  const DEFAULT_FPS: nat := 30

  datatype VideoMetadata = VideoMetadata(duration: real, width: nat, height: nat, fps: nat)

  /** What the core sets and reads on a video element. */
  datatype Element = Element(src: string, currentTime: real, paused: bool)

  /** Pixels read back from the canvas: a picture taken at position `drawnAt`, `width` by `height`. */
  datatype Image = Image(drawnAt: real, width: nat, height: nat)

  /** A captured frame: the timestamp it was requested for and its pixels. */
  datatype Frame = Frame(timestamp: real, image: Image)

  /**
   * The errors the core raises: `extractFrame` before any video is loaded
   * ("No video loaded"), and the canvas refusing to read back a picture with
   * no pixels (`getImageData` with a zero width or height).
   */
  datatype EditorError = NoVideoLoaded | IndexSizeError

  /** The canvas can read back a picture of this size: neither side is zero. */
  predicate HasPixels(md: VideoMetadata)
  {
    md.width > 0 && md.height > 0
  }

  /** The promise `loadVideo` handed out (numbered by `ticket`) resolving with `metadata`. */
  datatype LoadResolution = LoadResolution(ticket: nat, metadata: VideoMetadata)

  /**
   * The capture that waits for the seek to settle: the promise `extractFrame`
   * handed out (numbered by `ticket`) and the timestamp it asked for.
   */
  datatype Capture = Capture(ticket: nat, timestamp: real)

  /** The promise numbered `ticket` resolving with `frame`. */
  datatype Resolution = Resolution(ticket: nat, frame: Frame)

  /** The registered playback callback, known only by who it is. */
  type CallbackId = nat

  /** The playback callback called with a position. */
  datatype Notification = Notification(callback: CallbackId, currentTime: real)

  /** `element?.paused = paused`, as `play()` and `pause()` do it. */
  function WithPaused(element: Option<Element>, paused: bool): (r: Option<Element>)
  {
    if element.Some? then Some(element.value.(paused := paused)) else None
  }

  /** `if (element) element.currentTime = t`. */
  function WithTime(element: Option<Element>, t: real): (r: Option<Element>)
  {
    if element.Some? then Some(element.value.(currentTime := t)) else None
  }

  /** `if (element) element.src = url`. */
  function WithSrc(element: Option<Element>, url: string): (r: Option<Element>)
  {
    if element.Some? then Some(element.value.(src := url)) else None
  }

  /** `callback?.(t)`: the call made, if a callback is registered. */
  function Notify(callback: Option<CallbackId>, t: real): (r: Option<Notification>)
  {
    if callback.Some? then Some(Notification(callback.value, t)) else None
  }

  class EditorCore {
    var video: Element
    var preview: Option<Element>
    var canvasWidth: nat
    var canvasHeight: nat
    var metadata: Option<VideoMetadata>
    var timeline: seq<TimelineClip>
    var isPlaying: bool
    var playbackCallback: Option<CallbackId>
    /** The load whose `onloadedmetadata` and `onerror` handlers are installed; they stay installed once it settles. */
    var loadHandler: Option<nat>
    /** The load whose promise has not settled yet, always the one whose handlers are installed. */
    var pendingLoad: Option<nat>
    /** The number the next load promise gets. */
    var nextLoad: nat
    /** The capture whose promise the current `onseeked` handler will resolve. */
    var pendingCapture: Option<Capture>
    /** The number the next capture promise gets. */
    var nextTicket: nat

    /**
     * The object invariant: playing, or a capture in flight, only once metadata
     * is loaded (only `play` sets `isPlaying`, only after that check, and
     * metadata is never cleared); loaded metadata has the default frame rate
     * and the canvas has its size; an unsettled load is the latest one, and
     * every ticket in use has been handed out.
     */
    ghost predicate Valid()
      reads this
    {
      && (pendingLoad.Some? ==> pendingLoad == loadHandler)
      && (loadHandler.Some? ==> loadHandler.value < nextLoad)
      && (isPlaying ==> metadata.Some?)
      && (pendingCapture.Some? ==> metadata.Some? && pendingCapture.value.ticket < nextTicket)
      && (metadata.Some? ==>
            && metadata.value.fps == DEFAULT_FPS
            && canvasWidth == metadata.value.width
            && canvasHeight == metadata.value.height)
    }

    /** A fresh hidden element, a 1 by 1 canvas, nothing loaded, nothing playing, an empty timeline. */
    constructor ()
      ensures Valid()
      ensures video == Element("", 0.0, true) && preview == None
      ensures canvasWidth == 1 && canvasHeight == 1
      ensures metadata == None && timeline == [] && !isPlaying && playbackCallback == None
      ensures loadHandler == None && pendingLoad == None && nextLoad == 0
      ensures pendingCapture == None && nextTicket == 0
    {
      video := Element("", 0.0, true);
      preview := None;
      canvasWidth, canvasHeight := 1, 1;
      metadata := None;
      timeline := [];
      isPlaying := false;
      playbackCallback := None;
      loadHandler, pendingLoad, nextLoad := None, None, 0;
      pendingCapture := None;
      nextTicket := 0;
    }

    /** Attaches a preview element and gives it the hidden element's source. */
    method SetPreviewElement(element: Element)
      requires Valid()
      modifies this`preview
      ensures Valid()
      ensures preview == Some(element.(src := video.src))
    {
      preview := Some(element.(src := video.src));
    }

    /** Registers the playback callback; a later registration replaces an earlier one. */
    method SetPlaybackCallback(callback: CallbackId)
      requires Valid()
      modifies this`playbackCallback
      ensures Valid()
      ensures playbackCallback == Some(callback)
    {
      playbackCallback := Some(callback);
    }

    /** Without metadata nothing happens; otherwise both elements start and the core is playing. */
    method Play()
      requires Valid()
      modifies this`isPlaying, this`video, this`preview
      ensures Valid()
      ensures metadata.None? ==>
        isPlaying == old(isPlaying) && video == old(video) && preview == old(preview)
      ensures metadata.Some? ==>
        isPlaying && video == old(video).(paused := false) && preview == WithPaused(old(preview), false)
    {
      if metadata.None? {
        return;
      }
      isPlaying := true;
      video := video.(paused := false);
      preview := WithPaused(preview, false);
    }

    /** Pauses both elements and clears the playing flag, loaded or not. */
    method Pause()
      requires Valid()
      modifies this`isPlaying, this`video, this`preview
      ensures Valid()
      ensures !isPlaying && video == old(video).(paused := true) && preview == WithPaused(old(preview), true)
    {
      isPlaying := false;
      video := video.(paused := true);
      preview := WithPaused(preview, true);
    }

    /**
     * Pauses when playing and plays otherwise: with metadata the flag flips and
     * both elements follow it; without metadata the core is not playing and
     * nothing changes.
     */
    method TogglePlayPause()
      requires Valid()
      modifies this`isPlaying, this`video, this`preview
      ensures Valid()
      ensures metadata.None? ==>
        !isPlaying && video == old(video) && preview == old(preview)
      ensures metadata.Some? ==>
        && isPlaying == !old(isPlaying)
        && video == old(video).(paused := !isPlaying)
        && preview == WithPaused(old(preview), !isPlaying)
    {
      if isPlaying {
        Pause();
      } else {
        Play();
      }
    }

    method GetIsPlaying() returns (playing: bool)
      requires Valid()
      ensures playing == isPlaying
      ensures playing ==> metadata.Some?
    {
      playing := isPlaying;
    }

    /** The loaded duration, or 0 when nothing is loaded. */
    method GetDuration() returns (duration: real)
      requires Valid()
      ensures metadata.None? ==> duration == 0.0
      ensures metadata.Some? ==> duration == metadata.value.duration
    {
      duration := if metadata.Some? then metadata.value.duration else 0.0;
    }

    method GetCurrentTime() returns (t: real)
      requires Valid()
      ensures t == video.currentTime
    {
      t := video.currentTime;
    }

    /**
     * Binds the object URL `url` of the chosen file to the hidden element and
     * to the preview, installs this load's handlers in place of any earlier
     * ones and returns the number of its promise. An earlier load that has not
     * settled never will: its handlers are gone.
     */
    method LoadVideo(url: string) returns (ticket: nat)
      requires Valid()
      modifies this`video, this`preview, this`loadHandler, this`pendingLoad, this`nextLoad
      ensures Valid()
      ensures video == old(video).(src := url) && preview == WithSrc(old(preview), url)
      ensures ticket == old(nextLoad) && nextLoad == old(nextLoad) + 1
      ensures loadHandler == Some(ticket) && pendingLoad == Some(ticket)
    {
      video := video.(src := url);
      preview := WithSrc(preview, url);
      ticket := nextLoad;
      loadHandler, pendingLoad := Some(ticket), Some(ticket);
      nextLoad := nextLoad + 1;
    }

    /**
     * The hidden element reports its duration and size. With a handler
     * installed, the metadata becomes that size at 30 frames per second and
     * the canvas takes the size; the latest load resolves with the metadata if
     * it has not settled yet. With no handler installed nothing changes.
     */
    method FireLoadedMetadata(duration: real, width: nat, height: nat) returns (r: Option<LoadResolution>)
      requires Valid()
      modifies this`metadata, this`canvasWidth, this`canvasHeight, this`pendingLoad
      ensures Valid() && pendingLoad == None
      ensures old(loadHandler).None? ==>
        && r == None
        && metadata == old(metadata)
        && canvasWidth == old(canvasWidth) && canvasHeight == old(canvasHeight)
      ensures old(loadHandler).Some? ==>
        && metadata == Some(VideoMetadata(duration, width, height, DEFAULT_FPS))
        && canvasWidth == width && canvasHeight == height
        && (old(pendingLoad).None? ==> r == None)
        && (old(pendingLoad).Some? ==> r == Some(LoadResolution(old(pendingLoad).value, metadata.value)))
    {
      if loadHandler.None? {
        return None;
      }
      var md := VideoMetadata(duration, width, height, DEFAULT_FPS);
      metadata := Some(md);
      canvasWidth, canvasHeight := width, height;
      r := if pendingLoad.Some? then Some(LoadResolution(pendingLoad.value, md)) else None;
      pendingLoad := None;
    }

    /**
     * The hidden element cannot decode its source: the latest load, if it has
     * not settled, is rejected and its number returned; the metadata stays.
     */
    method FireLoadError() returns (rejected: Option<nat>)
      requires Valid()
      modifies this`pendingLoad
      ensures Valid() && pendingLoad == None
      ensures rejected == old(pendingLoad)
    {
      rejected := pendingLoad;
      pendingLoad := None;
    }

    /**
     * Asks for the frame at `timestamp`: fails without metadata; otherwise
     * seeks the hidden element and makes this request the only one the seek
     * handler will answer, replacing any earlier one. Returns the request's
     * number.
     */
    method ExtractFrame(timestamp: real) returns (r: Result<nat, EditorError>)
      requires Valid()
      modifies this`video, this`pendingCapture, this`nextTicket
      ensures Valid()
      ensures metadata.None? ==>
        && r == Failure(NoVideoLoaded)
        && video == old(video) && pendingCapture == old(pendingCapture) && nextTicket == old(nextTicket)
      ensures metadata.Some? ==>
        && r == Success(old(nextTicket))
        && video == old(video).(currentTime := timestamp)
        && pendingCapture == Some(Capture(old(nextTicket), timestamp))
        && nextTicket == old(nextTicket) + 1
    {
      if metadata.None? {
        return Failure(NoVideoLoaded);
      }
      video := video.(currentTime := timestamp);
      pendingCapture := Some(Capture(nextTicket, timestamp));
      r := Success(nextTicket);
      nextTicket := nextTicket + 1;
    }

    /**
     * The hidden element finishes seeking: the waiting capture, if any,
     * resolves with its own timestamp and the picture at the element's current
     * position, as large as the loaded video. When that size has a zero side
     * the canvas throws before the promise resolves, and the capture goes on
     * waiting for the next seek.
     */
    method FireSeeked() returns (r: Option<Resolution>)
      requires Valid()
      modifies this`pendingCapture
      ensures Valid()
      ensures old(pendingCapture).None? ==> r == None && pendingCapture == None
      ensures old(pendingCapture).Some? && !HasPixels(metadata.value) ==>
        r == None && pendingCapture == old(pendingCapture)
      ensures old(pendingCapture).Some? && HasPixels(metadata.value) ==>
        && pendingCapture == None
        && r == Some(Resolution(old(pendingCapture).value.ticket,
                       Frame(old(pendingCapture).value.timestamp,
                             Image(video.currentTime, metadata.value.width, metadata.value.height))))
    {
      if pendingCapture.None? || !HasPixels(metadata.value) {
        return None;
      }
      var capture := pendingCapture.value;
      var image := Image(video.currentTime, metadata.value.width, metadata.value.height);
      r := Some(Resolution(capture.ticket, Frame(capture.timestamp, image)));
      pendingCapture := None;
    }

    /**
     * The picture at the current position, as large as the loaded video;
     * nothing without metadata, and `IndexSizeError` when that size has a
     * zero side.
     */
    method GetCurrentFrame() returns (r: Result<Option<Image>, EditorError>)
      requires Valid()
      ensures metadata.None? ==> r == Success(None)
      ensures metadata.Some? && !HasPixels(metadata.value) ==> r == Failure(IndexSizeError)
      ensures metadata.Some? && HasPixels(metadata.value) ==>
        && r.Success? && r.value.Some?
        && r.value.value.drawnAt == video.currentTime
        && r.value.value.width == canvasWidth == metadata.value.width
        && r.value.value.height == canvasHeight == metadata.value.height
    {
      if metadata.None? {
        return Success(None);
      }
      if !HasPixels(metadata.value) {
        return Failure(IndexSizeError);
      }
      r := Success(Some(Image(video.currentTime, metadata.value.width, metadata.value.height)));
    }

    /** Moves the hidden element, and the preview if there is one, to `timestamp`; nothing else changes. */
    method SeekTo(timestamp: real)
      requires Valid()
      modifies this`video, this`preview
      ensures Valid()
      ensures video == old(video).(currentTime := timestamp)
      ensures preview == WithTime(old(preview), timestamp)
      ensures isPlaying == old(isPlaying) && metadata == old(metadata) && timeline == old(timeline)
      ensures pendingCapture == old(pendingCapture)
      ensures loadHandler == old(loadHandler) && pendingLoad == old(pendingLoad)
    {
      video := video.(currentTime := timestamp);
      preview := WithTime(preview, timestamp);
    }

    /** Appends the draft under `id` (the generated identifier) and returns that id. */
    method AddClip(draft: ClipDraft, id: string) returns (newId: string)
      requires Valid()
      modifies this`timeline
      ensures Valid()
      ensures newId == id
      ensures timeline == old(timeline) + [WithId(draft, newId)]
    {
      timeline := timeline + [WithId(draft, id)];
      newId := id;
    }

    /** Keeps only the records whose id is not `id`. */
    method RemoveClip(id: string)
      requires Valid()
      modifies this`timeline
      ensures Valid()
      ensures timeline == RemoveId(old(timeline), id)
    {
      timeline := RemoveId(timeline, id);
    }

    /** A copy of the stored records. */
    method GetTimeline() returns (clips: seq<TimelineClip>)
      requires Valid()
      ensures clips == timeline
    {
      clips := timeline;
    }

    /**
     * The browser moves the hidden element's position while it plays; the
     * preview element keeps its own position.
     */
    method AdvancePlayback(position: real)
      requires Valid()
      modifies this`video
      ensures Valid()
      ensures video == old(video).(currentTime := position)
    {
      video := video.(currentTime := position);
    }

    /** The hidden element reports progress: the callback, if any, gets the current position. */
    method FireTimeUpdate() returns (call: Option<Notification>)
      requires Valid()
      ensures call.None? <==> playbackCallback.None?
      ensures call.Some? ==> call.value == Notification(playbackCallback.value, video.currentTime)
    {
      call := Notify(playbackCallback, video.currentTime);
    }

    /**
     * The hidden element reaches its end: the core stops playing, the callback
     * gets the final position and the preview is paused.
     */
    method FireEnded() returns (call: Option<Notification>)
      requires Valid()
      modifies this`isPlaying, this`preview
      ensures Valid()
      ensures !isPlaying && preview == WithPaused(old(preview), true)
      ensures call == Notify(playbackCallback, video.currentTime)
    {
      isPlaying := false;
      call := Notify(playbackCallback, video.currentTime);
      preview := WithPaused(preview, true);
    }
  }

  /** Two toggles in a row give back the playing flag, loaded or not. */
  method ToggleTwice(editor: EditorCore)
    requires editor.Valid()
    modifies editor
    ensures editor.Valid()
    ensures editor.isPlaying == old(editor.isPlaying)
    ensures editor.metadata == old(editor.metadata) && editor.timeline == old(editor.timeline)
  {
    editor.TogglePlayPause();
    editor.TogglePlayPause();
  }

  /**
   * Load a 10 second, 640 by 360 video and capture the frame at 5 seconds: the
   * first capture resolves with timestamp 5, a picture taken at 5 seconds and
   * the video's size.
   */
  method CaptureScenario() returns (loaded: Option<LoadResolution>, resolved: Option<Resolution>)
    ensures loaded == Some(LoadResolution(0, VideoMetadata(10.0, 640, 360, 30)))
    ensures resolved == Some(Resolution(0, Frame(5.0, Image(5.0, 640, 360))))
  {
    var editor := new EditorCore();
    var load := editor.LoadVideo("blob:video");
    loaded := editor.FireLoadedMetadata(10.0, 640, 360);
    var request := editor.ExtractFrame(5.0);
    resolved := editor.FireSeeked();
  }

  /** A capture before any load fails with "No video loaded" and leaves nothing waiting. */
  method CaptureBeforeLoad(t: real) returns (r: Result<nat, EditorError>, resolved: Option<Resolution>)
    ensures r == Failure(NoVideoLoaded)
    ensures resolved == None
  {
    var editor := new EditorCore();
    r := editor.ExtractFrame(t);
    resolved := editor.FireSeeked();
  }

  /**
   * Two captures issued before the seek settles: only the second promise is
   * answered, with the second timestamp, and neither that seek nor the next
   * one resolves the first.
   */
  method OverlappingCaptures(first: real, second: real)
    returns (a: Result<nat, EditorError>, b: Result<nat, EditorError>, resolved: Option<Resolution>, later: Option<Resolution>)
    ensures a.Success? && b.Success? && a.value != b.value
    ensures resolved.Some? && resolved.value.ticket == b.value
    ensures resolved.value.frame.timestamp == second && resolved.value.frame.image.drawnAt == second
    ensures later == None
  {
    var editor := new EditorCore();
    var load := editor.LoadVideo("blob:video");
    var loaded := editor.FireLoadedMetadata(10.0, 640, 360);
    a := editor.ExtractFrame(first);
    b := editor.ExtractFrame(second);
    resolved := editor.FireSeeked();
    later := editor.FireSeeked();
  }

  /**
   * A seek issued while a capture waits moves the picture but not the tag:
   * the capture resolves with the requested timestamp and a picture taken at
   * the later position.
   */
  method SeekDuringCapture(requested: real, moved: real) returns (resolved: Option<Resolution>)
    ensures resolved.Some?
    ensures resolved.value.frame.timestamp == requested
    ensures resolved.value.frame.image.drawnAt == moved
  {
    var editor := new EditorCore();
    var load := editor.LoadVideo("blob:video");
    var loaded := editor.FireLoadedMetadata(10.0, 640, 360);
    var request := editor.ExtractFrame(requested);
    editor.SeekTo(moved);
    resolved := editor.FireSeeked();
  }

  /**
   * A second load issued before the first settles: the metadata event answers
   * the second promise, a later error event has no promise left to reject,
   * and the first promise is answered by neither.
   */
  method OverlappingLoads() returns (first: nat, second: nat, loaded: Option<LoadResolution>, rejected: Option<nat>)
    ensures first != second
    ensures loaded == Some(LoadResolution(second, VideoMetadata(10.0, 640, 360, 30)))
    ensures rejected == None
  {
    var editor := new EditorCore();
    first := editor.LoadVideo("blob:first");
    second := editor.LoadVideo("blob:second");
    loaded := editor.FireLoadedMetadata(10.0, 640, 360);
    rejected := editor.FireLoadError();
  }

  /**
   * A video that reports a zero size: the capture's seek handler throws, so
   * the capture is not answered and the current frame fails; once a later
   * load reports a real size, the next seek answers that same capture at the
   * new size.
   */
  method ZeroSizeCapture() returns (first: Option<Resolution>, current: Result<Option<Image>, EditorError>, later: Option<Resolution>)
    ensures first == None
    ensures current == Failure(IndexSizeError)
    ensures later == Some(Resolution(0, Frame(1.0, Image(1.0, 640, 360))))
  {
    var editor := new EditorCore();
    var load := editor.LoadVideo("blob:empty");
    var loaded := editor.FireLoadedMetadata(2.0, 0, 0);
    var request := editor.ExtractFrame(1.0);
    first := editor.FireSeeked();
    current := editor.GetCurrentFrame();
    var reload := editor.LoadVideo("blob:video");
    var reloaded := editor.FireLoadedMetadata(10.0, 640, 360);
    later := editor.FireSeeked();
  }

  /**
   * Playing moves the position the listeners report: after the browser
   * advances to 3 seconds the callback gets 3, and at the end it gets the
   * final position and the core has stopped.
   */
  method PlaybackProgress(callback: CallbackId) returns (progress: Option<Notification>, end: Option<Notification>, playing: bool)
    ensures progress == Some(Notification(callback, 3.0))
    ensures end == Some(Notification(callback, 10.0))
    ensures !playing
  {
    var editor := new EditorCore();
    editor.SetPlaybackCallback(callback);
    var load := editor.LoadVideo("blob:video");
    var loaded := editor.FireLoadedMetadata(10.0, 640, 360);
    editor.Play();
    editor.AdvancePlayback(3.0);
    progress := editor.FireTimeUpdate();
    editor.AdvancePlayback(10.0);
    end := editor.FireEnded();
    playing := editor.GetIsPlaying();
  }

  /** Adding a clip to a new editor and removing it by the returned id leaves the timeline empty. */
  method AddRemoveScenario(draft: ClipDraft, generated: string) returns (clips: seq<TimelineClip>)
    ensures clips == []
  {
    var editor := new EditorCore();
    var id := editor.AddClip(draft, generated);
    editor.RemoveClip(id);
    clips := editor.GetTimeline();
  }

  /** Without metadata, play and toggle leave the core stopped; pause stops it regardless. */
  method PlayWithoutVideo() returns (afterPlay: bool, afterToggle: bool)
    ensures !afterPlay && !afterToggle
  {
    var editor := new EditorCore();
    editor.Play();
    afterPlay := editor.GetIsPlaying();
    editor.TogglePlayPause();
    afterToggle := editor.GetIsPlaying();
  }
}
