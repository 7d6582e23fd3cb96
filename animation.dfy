/**
 * The frame stepper of UselessEngine/Graphics/Animation.swift. Textures are
 * opaque handles; the sprite the animation renders into is reduced to the
 * texture it last received. Frame rates are `Float`s built from `UInt8`s,
 * so never negative; the global default rate is passed in.
 */
module LegacyAnimation {
  import opened Numeric
  import opened Wrappers

  type Texture = int

  /** `elapsed`'s `didSet`: every write is clamped to `[0, 1]`. */
  function ClampElapsed(e: real): (r: real)
    ensures 0.0 <= r <= 1.0
  {
    Clamp(e, 0.0, 1.0)
  }

  /**
   * The rates the texture initializer builds, as written: `count` copies of
   * the default, the first `min(|given|, count)` overwritten; `None` when
   * the closed range `0...min - 1` is empty and so traps (given rates, no
   * textures).
   */
  function InitialRatesAsWritten(count: nat, given: seq<nat>, defaultRate: nat): (r: Option<seq<real>>)
  {
    if |given| > 0 && MinInt(|given|, count) - 1 < 0 then None
    else Some(InitialRates(count, given, defaultRate))
  }

  /** One rate per texture: the given one where there is one, the default after. */
  function InitialRates(count: nat, given: seq<nat>, defaultRate: nat): (r: seq<real>)
    ensures |r| == count
    ensures forall i :: 0 <= i < count ==> r[i] == (if i < |given| then given[i] else defaultRate) as real
  {
    seq(count, i requires 0 <= i < count => (if i < |given| then given[i] else defaultRate) as real)
  }

  /**
   * With no textures the initializer installs one placeholder texture but
   * sizes the rates by the empty argument: no rates and one texture, so
   * the first `update` reads past the end of the rates; with rates given
   * as well the overwrite loop's range traps first.
   */
  lemma EmptyTexturesLeaveNoRate(defaultRate: nat)
    ensures InitialRatesAsWritten(0, [], defaultRate) == Some([])
    ensures InitialRatesAsWritten(0, [12], defaultRate) == None
  {
  }

  /** Whenever there is at least one texture, as written and corrected agree. */
  lemma InitialRatesAgreeWithTextures(count: nat, given: seq<nat>, defaultRate: nat)
    requires count > 0
    ensures InitialRatesAsWritten(count, given, defaultRate) == Some(InitialRates(count, given, defaultRate))
  {
  }

  class Animation {
    var positionIndex: nat
    var elapsed: real
    const repeats: bool
    var textures: seq<Texture>
    var rates: seq<real>
    /** The texture the target sprite shows. */
    var spriteTexture: Texture
    /** The frame rate `addFrame` falls back to. */
    const defaultRate: nat

    ghost predicate Valid()
      reads this
    {
      && |textures| > 0
      && |rates| == |textures|
      && positionIndex < |textures|
      && 0.0 <= elapsed <= 1.0
      && forall i :: 0 <= i < |rates| ==> rates[i] >= 0.0
    }

    /** `finished`: on the last frame with its time used up. */
    function Finished(): bool
      reads this
    {
      positionIndex == |textures| - 1 && elapsed >= 1.0
    }

    /** `init(targetSprite:headFrame:repeats:)`: one frame, rendered. */
    constructor HeadFrame(texture: Texture, rate: nat, repeats: bool, defaultRate: nat)
      requires rate < 256
      ensures Valid() && textures == [texture] && rates == [rate as real]
      ensures positionIndex == 0 && elapsed == 0.0 && spriteTexture == texture
      ensures this.repeats == repeats && this.defaultRate == defaultRate
    {
      positionIndex := 0;
      elapsed := 0.0;
      this.repeats := repeats;
      this.defaultRate := defaultRate;
      textures := [texture];
      rates := [rate as real];
      spriteTexture := texture;
    }

    /**
     * `init(targetSprite:textures:rates:repeats:)` with the rates sized by
     * the textures actually installed (a placeholder when none are given).
     */
    constructor Frames(givenTextures: seq<Texture>, givenRates: seq<nat>, repeats: bool, placeholder: Texture, defaultRate: nat)
      ensures Valid() && positionIndex == 0 && elapsed == 0.0
      ensures textures == if |givenTextures| > 0 then givenTextures else [placeholder]
      ensures rates == InitialRates(|textures|, givenRates, defaultRate)
      ensures spriteTexture == textures[0]
      ensures this.repeats == repeats && this.defaultRate == defaultRate
    {
      positionIndex := 0;
      elapsed := 0.0;
      this.repeats := repeats;
      this.defaultRate := defaultRate;
      var installed := if |givenTextures| > 0 then givenTextures else [placeholder];
      textures := installed;
      var r := FillRates(|installed|, givenRates, defaultRate);
      rates := r;
      spriteTexture := installed[0];
    }

    /** `addFrame(withTexture:rate:)`: a zero rate means the default. */
    method AddFrame(texture: Texture, rate: nat)
      requires Valid()
      modifies this
      ensures Valid()
      ensures textures == old(textures) + [texture]
      ensures rates == old(rates) + [(if rate > 0 then rate else defaultRate) as real]
      ensures positionIndex == old(positionIndex) && elapsed == old(elapsed) && spriteTexture == old(spriteTexture)
    {
      textures := textures + [texture];
      rates := rates + [(if rate > 0 then rate else defaultRate) as real];
    }

    /**
     * `update(_:)`: nothing once the frame's time is used up; otherwise the
     * time advances by rate times `dt`, and on reaching 1 the next frame is
     * shown with fresh time, the first one again after the last when the
     * animation repeats, and a non-repeating last frame stays finished.
     */
    method Update(dt: real)
      requires Valid()
      modifies this
      ensures Valid()
      ensures textures == old(textures) && rates == old(rates)
      ensures old(elapsed) >= 1.0 ==>
        positionIndex == old(positionIndex) && elapsed == old(elapsed) && spriteTexture == old(spriteTexture)
      ensures old(elapsed) < 1.0 ==>
        var e := ClampElapsed(old(elapsed) + old(rates[positionIndex]) * dt);
        var last := old(positionIndex) == |textures| - 1;
        if e < 1.0 then
          positionIndex == old(positionIndex) && elapsed == e && spriteTexture == old(spriteTexture)
        else if last && !repeats then
          positionIndex == old(positionIndex) && elapsed == 1.0 && spriteTexture == old(spriteTexture)
        else
          positionIndex == (if last then 0 else old(positionIndex) + 1) && elapsed == 0.0
          && spriteTexture == textures[positionIndex]
    {
      if elapsed >= 1.0 {
        return;
      }
      elapsed := ClampElapsed(elapsed + rates[positionIndex] * dt);
      if elapsed >= 1.0 {
        if positionIndex == |textures| - 1 {
          if repeats {
            positionIndex := 0;
          } else {
            return;
          }
        } else {
          positionIndex := positionIndex + 1;
        }
        spriteTexture := textures[positionIndex];
        elapsed := 0.0;
      }
    }

    /**
     * `setFrame(toIndex:elapsed:andRender:)`: an index past the last frame is
     * ignored; otherwise a negative index or time counts as 0 and the time
     * is clamped to 1, and the frame is rendered only when asked.
     */
    method SetFrame(newPosition: int, newElapsed: real, render: bool)
      requires Valid()
      modifies this
      ensures Valid()
      ensures textures == old(textures) && rates == old(rates)
      ensures newPosition >= |textures| ==>
        positionIndex == old(positionIndex) && elapsed == old(elapsed) && spriteTexture == old(spriteTexture)
      ensures newPosition < |textures| ==>
        && positionIndex == (if newPosition < 0 then 0 else newPosition)
        && elapsed == ClampElapsed(Max(newElapsed, 0.0))
        && spriteTexture == (if render then textures[positionIndex] else old(spriteTexture))
    {
      if newPosition >= |textures| {
        return;
      }
      positionIndex := if newPosition < 0 then 0 else newPosition;
      if render {
        spriteTexture := textures[positionIndex];
      }
      elapsed := ClampElapsed(Max(newElapsed, 0.0));
    }

    /** `reset(andRenderFrame:)`: back to the first frame with no time spent. */
    method Reset(render: bool)
      requires Valid()
      modifies this
      ensures Valid() && positionIndex == 0 && elapsed == 0.0
      ensures textures == old(textures) && rates == old(rates)
      ensures spriteTexture == if render then textures[0] else old(spriteTexture)
    {
      positionIndex := 0;
      if render {
        spriteTexture := textures[0];
      }
      elapsed := 0.0;
    }
  }

  /** The rate array the texture initializer fills in: the defaults, then the given rates over them. */
  method FillRates(count: nat, given: seq<nat>, defaultRate: nat) returns (rates: seq<real>)
    ensures rates == InitialRates(count, given, defaultRate)
  {
    rates := seq(count, _ => defaultRate as real);
    if |given| > 0 && count > 0 {
      var n := MinInt(|given|, count);
      var i := 0;
      while i <= n - 1
        invariant 0 <= i <= n
        invariant |rates| == count
        invariant forall j :: 0 <= j < count ==> rates[j] == (if j < i then given[j] else defaultRate) as real
      {
        rates := rates[i := given[i] as real];
        i := i + 1;
      }
    }
  }
}
