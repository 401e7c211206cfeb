/** The earlier client's preferences (bak/preferences.cpp): global flags and screen
    sizes, set from the command line and by the screen setters, and the drawing mask
    that rounds x positions to even pixels when the actual screen is narrower than the
    virtual one. The globals are the fields of one object. */
module Preferences {
  import CInt

  /** `xypos_draw_mask` for the given widths: `~1` (every bit but the lowest, -2 in
      two's complement) when the actual screen is narrower than the virtual one, `~0`
      (every bit, -1) otherwise. */
  function DrawMask(actualWidth: int, virtualWidth: int): (mask: int)
    ensures mask == -2 || mask == -1
    ensures mask == -2 <==> actualWidth < virtualWidth
  {
    if actualWidth < virtualWidth then -2 else -1
  }

  /** The six flags `parse_arg` knows. */
  predicate IsKnownFlag(arg: string)
  {
    arg == "--show_hitboxes" || arg == "--scale" || arg == "--nosound" ||
    arg == "--fullscreen" || arg == "--widescreen" || arg == "--potonly"
  }

  /** `(height * 16) / 9` in C `int` arithmetic: the 16:9 width of a height. */
  function WideWidth(height: int): int
  {
    CInt.Div(height * 16, 9)
  }

  /** For a non-negative height the wide width is the largest width whose ratio to the
      height does not exceed 16:9; it keeps the order of heights. */
  lemma WideWidthRatio(height: int, height': int)
    requires 0 <= height <= height'
    ensures 9 * WideWidth(height) <= 16 * height < 9 * (WideWidth(height) + 1)
    ensures WideWidth(height) <= WideWidth(height')
  {
    CInt.DivModProperties(height * 16, 9);
    CInt.DivModProperties(height' * 16, 9);
  }

  class Prefs {
    var noSound: bool
    var showDebugHitboxes: bool
    var usePrettyScaling: bool
    var fullscreen: bool
    var virtualScreenWidth: int
    var virtualScreenHeight: int
    var actualScreenWidth: int
    var actualScreenHeight: int
    var screenRotated: bool
    var loadCompiled: bool
    var forceNoNpotTextures: bool
    var xyposDrawMask: int

    /** The mask always agrees with the current widths. */
    predicate Valid()
      reads this`xyposDrawMask, this`actualScreenWidth, this`virtualScreenWidth
    {
      xyposDrawMask == DrawMask(actualScreenWidth, virtualScreenWidth)
    }

    /** The initial values: 1024x768 on both screens on the desktop; a 960x640 virtual
        and a 320x480 rotated actual screen on the phone build. */
    constructor (phone: bool)
      ensures Valid()
      ensures !noSound && !showDebugHitboxes && !usePrettyScaling && !fullscreen
      ensures !loadCompiled && !forceNoNpotTextures && screenRotated == phone
      ensures phone ==> virtualScreenWidth == 960 && virtualScreenHeight == 640
                        && actualScreenWidth == 320 && actualScreenHeight == 480
      ensures !phone ==> virtualScreenWidth == 1024 && virtualScreenHeight == 768
                         && actualScreenWidth == 1024 && actualScreenHeight == 768
      ensures xyposDrawMask == if phone then -2 else -1
    {
      noSound, showDebugHitboxes, usePrettyScaling, fullscreen := false, false, false, false;
      if phone {
        virtualScreenWidth, virtualScreenHeight := 960, 640;
        actualScreenWidth, actualScreenHeight := 320, 480;
        screenRotated := true;
      } else {
        virtualScreenWidth, virtualScreenHeight := 1024, 768;
        actualScreenWidth, actualScreenHeight := 1024, 768;
        screenRotated := false;
      }
      loadCompiled, forceNoNpotTextures := false, false;
      new;
      xyposDrawMask := if actualScreenWidth < virtualScreenWidth then -2 else -1;
    }

    /** `recalculate_draw_mask`. */
    method RecalculateDrawMask()
      modifies this`xyposDrawMask
      ensures Valid()
    {
      xyposDrawMask := if actualScreenWidth < virtualScreenWidth then -2 else -1;
    }

    method SetUsePrettyScaling(value: bool)
      modifies this`usePrettyScaling
      ensures usePrettyScaling == value
    {
      usePrettyScaling := value;
    }

    method SetFullscreen(value: bool)
      modifies this`fullscreen
      ensures fullscreen == value
    {
      fullscreen := value;
    }

    method SetLoadCompiled(value: bool)
      modifies this`loadCompiled
      ensures loadCompiled == value
    {
      loadCompiled := value;
    }

    /** `set_widescreen`: both widths become 16:9 of their heights and the mask follows. */
    method SetWidescreen()
      modifies this`virtualScreenWidth, this`actualScreenWidth, this`xyposDrawMask
      ensures Valid()
      ensures virtualScreenWidth == WideWidth(virtualScreenHeight)
      ensures actualScreenWidth == WideWidth(actualScreenHeight)
    {
      virtualScreenWidth := CInt.Div(virtualScreenHeight * 16, 9);
      actualScreenWidth := CInt.Div(actualScreenHeight * 16, 9);
      RecalculateDrawMask();
    }

    /** `set_actual_screen_width`: the mask follows the new width. */
    method SetActualScreenWidth(width: int)
      requires Valid()
      modifies this`actualScreenWidth, this`xyposDrawMask
      ensures Valid()
      ensures actualScreenWidth == width
    {
      actualScreenWidth := width;
      RecalculateDrawMask();
    }

    /** `set_actual_screen_height`: only the height changes; the mask depends on the
        widths alone, so it stays right. */
    method SetActualScreenHeight(height: int)
      requires Valid()
      modifies this`actualScreenHeight
      ensures Valid()
      ensures actualScreenHeight == height
    {
      actualScreenHeight := height;
    }

    /** `parse_arg`: a known flag sets its preference and is accepted; anything else is
        refused and changes nothing. */
    method ParseArg(arg: string) returns (known: bool)
      requires Valid()
      modifies this
      ensures Valid()
      ensures known <==> IsKnownFlag(arg)
      ensures showDebugHitboxes == (old(showDebugHitboxes) || arg == "--show_hitboxes")
      ensures usePrettyScaling == (old(usePrettyScaling) || arg == "--scale")
      ensures noSound == (old(noSound) || arg == "--nosound")
      ensures fullscreen == (old(fullscreen) || arg == "--fullscreen")
      ensures forceNoNpotTextures == (old(forceNoNpotTextures) || arg == "--potonly")
      ensures arg == "--widescreen" ==> virtualScreenWidth == WideWidth(old(virtualScreenHeight))
                                        && actualScreenWidth == WideWidth(old(actualScreenHeight))
      ensures arg != "--widescreen" ==> virtualScreenWidth == old(virtualScreenWidth)
                                        && actualScreenWidth == old(actualScreenWidth)
      ensures virtualScreenHeight == old(virtualScreenHeight) && actualScreenHeight == old(actualScreenHeight)
      ensures screenRotated == old(screenRotated) && loadCompiled == old(loadCompiled)
    {
      if arg == "--show_hitboxes" {
        showDebugHitboxes := true;
      } else if arg == "--scale" {
        SetUsePrettyScaling(true);
      } else if arg == "--nosound" {
        noSound := true;
      } else if arg == "--fullscreen" {
        fullscreen := true;
      } else if arg == "--widescreen" {
        SetWidescreen();
      } else if arg == "--potonly" {
        forceNoNpotTextures := true;
      } else {
        return false;
      }
      return true;
    }
  }
}
