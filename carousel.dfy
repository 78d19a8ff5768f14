/** The client-logo carousel: the track of logo tiles, built from the logo
    list written out twice so that the looping animation wraps seamlessly,
    and the bookkeeping that turns a drag or a prev/next click into a
    horizontal offset of the track. Offsets are whole pixels. */
module Carousel {
  import opened Options

  /** One client logo. A rendered tile is modelled by the record it shows. */
  datatype Logo = Logo(name: string, file: string, displayName: string, project: string)

  /** Width of a tile (200 px square) plus the gap after it (32 px). */
  const TileWidth: int := 200 + 32

  /** The clients shown on the page, in order. */
  const ClientLogos: seq<Logo> := [
    Logo("autobacs", "autobacs.jpg", "オートバックス", "ウマ娘コラボ企画"),
    Logo("coca-cola", "coca-cola.jpg", "コカ・コーラ", "アニメコラボ企画"),
    Logo("yamato", "yamato.jpg", "ヤマト運輸", "物流戦略サポート"),
    Logo("studio-trigger", "studio-trigger.jpg", "スタジオトリガー", "制作パートナーシップ"),
    Logo("yostar", "yostar.jpg", "Yostar", "ゲームコンテンツ連携"),
    Logo("kose", "kose.jpg", "コーセー", "ビューティー企画"),
    Logo("cygames", "cygames.jpg", "Cygames", "クロスメディア展開")
  ]

  /** The tiles a track built from `logos` holds: every logo, then every
      logo again. Tile `i` and tile `i + n` show the same logo. */
  function Doubled(logos: seq<Logo>): (r: seq<Logo>)
    ensures |r| == 2 * |logos|
    ensures forall i :: 0 <= i < |logos| ==> r[i] == logos[i] && r[i + |logos|] == logos[i]
  {
    logos + logos
  }

  class LogoCarousel {
    /** The logo list the track is built from. */
    const logos: seq<Logo>
    /** The tiles appended to the track, in order. */
    var track: seq<Logo>
    /** Set while the user hovers, drags or has just used a button. */
    var isUserInteracting: bool
    /** The track carries the `paused` class. */
    var paused: bool
    /** The track's inline `animation` style is `none`. */
    var animationSuppressed: bool
    /** The track's inline `translateX` offset, when one was written. */
    var inlineOffset: Option<int>
    var isDragging: bool
    /** Pointer position where the drag started. */
    var startX: int
    /** Offset of the track when the drag started. */
    var currentTransform: int

    /** `setupLogoScroll`: the track is built from the client list, nothing
        is paused or dragged, and the drag baseline starts at 0. */
    constructor ()
      ensures logos == ClientLogos && track == Doubled(ClientLogos)
      ensures |track| == 14
      ensures !isUserInteracting && !paused && !animationSuppressed && inlineOffset.None?
      ensures !isDragging && startX == 0 && currentTransform == 0
    {
      logos := ClientLogos;
      track := [];
      isUserInteracting, paused, animationSuppressed := false, false, false;
      inlineOffset := None;
      isDragging, startX, currentTransform := false, 0, 0;
      new;
      GenerateLogoTrack();
    }

    /** `generateLogoTrack`: appends a tile for every logo, then a tile for
        every logo once more. */
    method GenerateLogoTrack()
      modifies this`track
      ensures track == old(track) + Doubled(logos)
    {
      for i := 0 to |logos|
        invariant track == old(track) + logos[..i]
      {
        track := track + [logos[i]];
      }
      for i := 0 to |logos|
        invariant track == old(track) + logos + logos[..i]
      {
        track := track + [logos[i]];
      }
    }

    /** `pauseAnimation`. */
    method PauseAnimation()
      modifies this`isUserInteracting, this`paused
      ensures isUserInteracting && paused
    {
      isUserInteracting := true;
      paused := true;
    }

    /** `resumeAnimation`, also what the drag-release and button timers run. */
    method ResumeAnimation()
      modifies this`isUserInteracting, this`paused
      ensures !isUserInteracting && !paused
    {
      isUserInteracting := false;
      paused := false;
    }

    /** `startDrag` at pointer position `clientX`. `computed` is the track's
        rendered offset, or `None` when its computed transform is `none`, in
        which case the baseline of the previous drag is kept. The track is
        pinned at the baseline with its animation switched off. */
    method StartDrag(clientX: int, computed: Option<int>)
      modifies this`isDragging, this`startX, this`isUserInteracting, this`paused
      modifies this`currentTransform, this`animationSuppressed, this`inlineOffset
      ensures isDragging && startX == clientX && isUserInteracting && paused
      ensures currentTransform == if computed.Some? then computed.value else old(currentTransform)
      ensures animationSuppressed && inlineOffset == Some(currentTransform)
    {
      isDragging := true;
      startX := clientX;
      PauseAnimation();
      if computed.Some? {
        currentTransform := computed.value;
      }
      animationSuppressed := true;
      inlineOffset := Some(currentTransform);
    }

    /** `updateDrag`: while dragging, the track follows the pointer, so it
        sits at the baseline moved by as much as the pointer has moved since
        the drag started; otherwise nothing changes. */
    method UpdateDrag(clientX: int)
      modifies this`inlineOffset
      ensures isDragging ==> inlineOffset == Some(currentTransform - (startX - clientX))
      ensures isDragging ==> inlineOffset.value - currentTransform == clientX - startX
      ensures !isDragging ==> inlineOffset == old(inlineOffset)
    {
      if !isDragging {
        return;
      }
      var deltaX := startX - clientX;
      var newTransform := currentTransform - deltaX;
      inlineOffset := Some(newTransform);
    }

    /** `endDrag`: ends a drag, restores the animation and drops the
        `paused` class; the user still counts as interacting until the grace
        timer runs `ResumeAnimation`. Without a drag nothing changes. */
    method EndDrag()
      modifies this`isDragging, this`animationSuppressed, this`paused
      ensures !isDragging
      ensures old(isDragging) ==> !animationSuppressed && !paused
      ensures !old(isDragging) ==> animationSuppressed == old(animationSuppressed) && paused == old(paused)
    {
      if !isDragging {
        return;
      }
      isDragging := false;
      animationSuppressed := false;
      paused := false;
    }

    /** `mouseleave` on the container: resumes unless a drag is in progress. */
    method MouseLeave()
      modifies this`isUserInteracting, this`paused
      ensures !isDragging ==> !isUserInteracting && !paused
      ensures isDragging ==> isUserInteracting == old(isUserInteracting) && paused == old(paused)
    {
      if !isDragging {
        ResumeAnimation();
      }
    }

    /** Shared body of the prev and next buttons: pause, read the rendered
        offset (0 when the computed transform is `none`), switch the
        animation off and move the track by `shift`. */
    method Jump(computed: Option<int>, shift: int)
      modifies this`isUserInteracting, this`paused, this`animationSuppressed, this`inlineOffset
      ensures isUserInteracting && paused && animationSuppressed
      ensures inlineOffset == Some((if computed.Some? then computed.value else 0) + shift)
    {
      PauseAnimation();
      var currentX := 0;
      if computed.Some? {
        currentX := computed.value;
      }
      animationSuppressed := true;
      inlineOffset := Some(currentX + shift);
    }

    /** The prev button: the track moves one tile to the right. */
    method PrevClick(computed: Option<int>)
      modifies this`isUserInteracting, this`paused, this`animationSuppressed, this`inlineOffset
      ensures isUserInteracting && paused && animationSuppressed
      ensures inlineOffset == Some((if computed.Some? then computed.value else 0) + TileWidth)
    {
      Jump(computed, TileWidth);
    }

    /** The next button: the track moves one tile to the left. */
    method NextClick(computed: Option<int>)
      modifies this`isUserInteracting, this`paused, this`animationSuppressed, this`inlineOffset
      ensures isUserInteracting && paused && animationSuppressed
      ensures inlineOffset == Some((if computed.Some? then computed.value else 0) - TileWidth)
    {
      Jump(computed, -TileWidth);
    }

    /** What the 500 ms timer started by a button click runs: the animation
        is restored and resumed. */
    method AfterJump()
      modifies this`isUserInteracting, this`paused, this`animationSuppressed
      ensures !animationSuppressed && !isUserInteracting && !paused
    {
      animationSuppressed := false;
      ResumeAnimation();
    }
  }
}
