/** Where the picture of a video lies inside its element under
    `object-fit: contain` (section 5.5 of CSS Images Module Level 3): scaled
    to fit entirely, aspect ratio kept, centred, with bars on the two sides
    (pillarbox) or above and below (letterbox). Pose landmarks, normalised
    to 0..1 over the picture, are mapped into that rectangle. Sizes are
    exact reals. */
module OverlayGeometry {

  /** The rendered picture: `offsetX`, `offsetY` and the scale factors
      `scaleX == width`, `scaleY == height`. */
  datatype Rect = Rect(offsetX: real, offsetY: real, width: real, height: real)

  /** `video.videoWidth || displayWidth`: before metadata arrives the
      intrinsic size reads 0 and the element's own box is used instead. */
  function SourceSize(intrinsic: nat, display: real): real {
    if intrinsic == 0 then display else intrinsic as real
  }

  /** The source is wider than the box: `videoAspect > displayAspect`. */
  predicate SourceIsWider(displayW: real, displayH: real, videoW: nat, videoH: nat)
    requires displayW > 0.0 && displayH > 0.0
  {
    SourceSize(videoW, displayW) / SourceSize(videoH, displayH) > displayW / displayH
  }

  function ContainRect(displayW: real, displayH: real, videoW: nat, videoH: nat): (g: Rect)
    requires displayW > 0.0 && displayH > 0.0
    // the picture is non-degenerate and keeps the source's aspect ratio
    ensures g.width > 0.0 && g.height > 0.0
    ensures g.width * SourceSize(videoH, displayH) == g.height * SourceSize(videoW, displayW)
    // it is centred in the box and fits inside it
    ensures g.offsetX >= 0.0 && g.offsetY >= 0.0
    ensures 2.0 * g.offsetX + g.width == displayW && 2.0 * g.offsetY + g.height == displayH
    // it touches the box on two opposite sides: bars on one axis at most
    ensures g.offsetX == 0.0 || g.offsetY == 0.0
    ensures SourceIsWider(displayW, displayH, videoW, videoH) ==> g.width == displayW
    ensures !SourceIsWider(displayW, displayH, videoW, videoH) ==> g.height == displayH
  {
    var vw := SourceSize(videoW, displayW);
    var vh := SourceSize(videoH, displayH);
    var videoAspect := vw / vh;
    var displayAspect := displayW / displayH;
    if videoAspect > displayAspect then
      var h := displayW / videoAspect;
      WiderBranch(displayW, displayH, vw, vh, h);
      Rect(0.0, (displayH - h) / 2.0, displayW, h)
    else
      var w := displayH * videoAspect;
      TallerBranch(displayW, displayH, vw, vh, w);
      Rect((displayW - w) / 2.0, 0.0, w, displayH)
  }

  lemma WiderBranch(dw: real, dh: real, vw: real, vh: real, h: real)
    requires dw > 0.0 && dh > 0.0 && vw > 0.0 && vh > 0.0
    requires vw / vh > dw / dh && h == dw / (vw / vh)
    ensures 0.0 < h <= dh && dw * vh == h * vw
  {
    var a := vw / vh;
    assert a * vh == vw;
    assert h * a == dw;
    assert h * vw == dw * vh by {
      calc {
        h * vw;
        h * (a * vh);
        (h * a) * vh;
        dw * vh;
      }
    }
    assert (dw / dh) * dh == dw;
    assert vw * dh > dw * vh by {
      calc {
        vw * dh;
        (a * vh) * dh;
        a * (vh * dh);
      >  { assert a > dw / dh; assert vh * dh > 0.0; }
        (dw / dh) * (vh * dh);
        ((dw / dh) * dh) * vh;
        dw * vh;
      }
    }
  }

  lemma TallerBranch(dw: real, dh: real, vw: real, vh: real, w: real)
    requires dw > 0.0 && dh > 0.0 && vw > 0.0 && vh > 0.0
    requires !(vw / vh > dw / dh) && w == dh * (vw / vh)
    ensures 0.0 < w <= dw && w * vh == dh * vw
  {
    var a := vw / vh;
    assert a * vh == vw;
    assert w * vh == dh * vw by {
      calc {
        w * vh;
        dh * (a * vh);
        dh * vw;
      }
    }
    assert (dw / dh) * dh == dw;
    assert w <= dw by {
      calc {
        w;
        dh * a;
      <= { assert a <= dw / dh; }
        dh * (dw / dh);
        dw;
      }
    }
  }

  /** A normalised landmark coordinate (mirrored as `1 - x` when asked) mapped
      into the picture: `x * scaleX + offsetX`, `y * scaleY + offsetY`. */
  datatype Point = Point(x: real, y: real)

  function MirrorX(x: real, mirror: bool): real {
    if mirror then 1.0 - x else x
  }

  function ToPixel(g: Rect, x: real, y: real, mirror: bool): Point {
    Point(MirrorX(x, mirror) * g.width + g.offsetX, y * g.height + g.offsetY)
  }

  /** A landmark inside the normalised frame lands inside the picture, with
      or without mirroring. */
  lemma PixelInsideRect(g: Rect, x: real, y: real, mirror: bool)
    requires g.width > 0.0 && g.height > 0.0
    requires 0.0 <= x <= 1.0 && 0.0 <= y <= 1.0
    ensures var p := ToPixel(g, x, y, mirror);
            && g.offsetX <= p.x <= g.offsetX + g.width
            && g.offsetY <= p.y <= g.offsetY + g.height
  {
    var mx := MirrorX(x, mirror);
    var sx := mx * g.width;
    var sy := y * g.height;
    ScaleWithin(mx, g.width);
    ScaleWithin(y, g.height);
    assert ToPixel(g, x, y, mirror) == Point(sx + g.offsetX, sy + g.offsetY);
  }

  /** ... and hence inside the element's box. */
  lemma ToPixelInsideBox(dw: real, dh: real, videoW: nat, videoH: nat,
                         x: real, y: real, mirror: bool)
    requires dw > 0.0 && dh > 0.0
    requires 0.0 <= x <= 1.0 && 0.0 <= y <= 1.0
    ensures var p := ToPixel(ContainRect(dw, dh, videoW, videoH), x, y, mirror);
            0.0 <= p.x <= dw && 0.0 <= p.y <= dh
  {
    var g := ContainRect(dw, dh, videoW, videoH);
    PixelInsideRect(g, x, y, mirror);
  }

  lemma ScaleWithin(t: real, len: real)
    requires 0.0 <= t <= 1.0 && len > 0.0
    ensures 0.0 <= t * len <= len
  {
    assert t * len <= 1.0 * len;
  }

  /** Before metadata loads both intrinsic sizes read 0: the picture is the
      whole box. */
  lemma NoMetadataFillsBox(dw: real, dh: real)
    requires dw > 0.0 && dh > 0.0
    ensures ContainRect(dw, dh, 0, 0) == Rect(0.0, 0.0, dw, dh)
  {
  }

  /** The two worked examples: a 1920x1080 source in an 800x600 box is
      letterboxed by 75 pixels; a 1080x1920 source is pillarboxed by
      231.25 pixels. */
  lemma LetterboxExample()
    ensures ContainRect(800.0, 600.0, 1920, 1080) == Rect(0.0, 75.0, 800.0, 450.0)
  {
  }

  lemma PillarboxExample()
    ensures ContainRect(800.0, 600.0, 1080, 1920) == Rect(231.25, 0.0, 337.5, 600.0)
  {
  }
}
