/** Validation of one dispatch: an ordered list of clauses, of which the first violated one
    is reported, and the translation of an accepted frame. */
module FsrFrame {

  import opened Optional
  import opened Words
  import opened Binary32
  import opened FsrContract

  datatype Clause =
    | RequiredResource
    | RequiredResourceState
    | KnownResourceStates
    | OptionalResourceState
    | NonzeroRenderSize
    | RenderSizeInContext
    | WholeUpscaleSize
    | UpscaleSizeInContext
    | FiniteJitter
    | FiniteMotionScale
    | ValidSharpness
    | ValidFrameTimeDelta
    | ValidPreExposure
    | FiniteCameraPlanes
    | ValidCameraFov
    | ValidViewSpaceScale
    | ValidBooleans
    | KnownDispatchFlags
    | OneColorTransfer
    | NoDebugView

  function Reason(c: Clause): string {
    match c
    case RequiredResource => "missing_required_resource"
    case RequiredResourceState => "missing_required_resource_state"
    case KnownResourceStates => "unknown_resource_state_bits"
    case OptionalResourceState => "missing_optional_resource_state"
    case NonzeroRenderSize => "zero_render_size"
    case RenderSizeInContext => "render_size_exceeds_context"
    case WholeUpscaleSize => "partial_zero_upscale_size"
    case UpscaleSizeInContext => "upscale_size_exceeds_context"
    case FiniteJitter => "nonfinite_jitter"
    case FiniteMotionScale => "nonfinite_motion_scale"
    case ValidSharpness => "invalid_sharpness"
    case ValidFrameTimeDelta => "invalid_frame_time_delta"
    case ValidPreExposure => "invalid_pre_exposure"
    case FiniteCameraPlanes => "nonfinite_camera_planes"
    case ValidCameraFov => "invalid_camera_fov"
    case ValidViewSpaceScale => "invalid_view_space_scale"
    case ValidBooleans => "invalid_boolean"
    case KnownDispatchFlags => "unknown_dispatch_flags"
    case OneColorTransfer => "conflicting_color_transfer"
    case NoDebugView => "debug_view_unsupported"
  }

  function Rank(c: Clause): nat {
    match c
    case RequiredResource => 0
    case RequiredResourceState => 1
    case KnownResourceStates => 2
    case OptionalResourceState => 3
    case NonzeroRenderSize => 4
    case RenderSizeInContext => 5
    case WholeUpscaleSize => 6
    case UpscaleSizeInContext => 7
    case FiniteJitter => 8
    case FiniteMotionScale => 9
    case ValidSharpness => 10
    case ValidFrameTimeDelta => 11
    case ValidPreExposure => 12
    case FiniteCameraPlanes => 13
    case ValidCameraFov => 14
    case ValidViewSpaceScale => 15
    case ValidBooleans => 16
    case KnownDispatchFlags => 17
    case OneColorTransfer => 18
    case NoDebugView => 19
  }

  /** (0, 0) asks for the full context size. */
  predicate DefaultUpscale(p: DispatchPacket) {
    p.upscaleWidth == 0 && p.upscaleHeight == 0
  }

  function Upscale(create: CreateContract, p: DispatchPacket): Extent {
    if DefaultUpscale(p) then create.backend.output else Extent(p.upscaleWidth, p.upscaleHeight)
  }

  predicate KnownState(state: bv32) {
    state & UNKNOWN_RESOURCE_STATES == 0
  }

  predicate KnownFlags(flags: bv32) {
    flags & UNKNOWN_DISPATCH_FLAGS == 0
  }

  predicate WantsSrgb(flags: bv32) {
    flags & COLOR_SRGB != 0
  }

  predicate WantsPq(flags: bv32) {
    flags & COLOR_PQ != 0
  }

  predicate WantsDebugView(flags: bv32) {
    flags & DEBUG_VIEW != 0
  }

  /** A finite number in a closed range; NaNs and infinities are in no range. */
  predicate AtLeastZero(x: Float) {
    IsFinite(x) && Key(x) >= 0
  }

  predicate Positive(x: Float) {
    IsFinite(x) && Key(x) > 0
  }

  predicate AtMost(x: Float, bound: Float) {
    IsFinite(x) && Key(x) <= Key(bound)
  }

  predicate Fits(inner: Extent, outer: Extent) {
    inner.width <= outer.width && inner.height <= outer.height
  }

  predicate Nonempty(e: Extent) {
    e.width > 0 && e.height > 0
  }

  predicate Satisfied(c: Clause, create: CreateContract, p: DispatchPacket) {
    match c
    case RequiredResource =>
      p.commandList != 0 && p.color != 0 && p.depth != 0 && p.motionVectors != 0 && p.output != 0
    case RequiredResourceState =>
      p.colorState != 0 && p.depthState != 0 && p.motionState != 0 && p.outputState != 0
    case KnownResourceStates =>
      && KnownState(p.colorState) && KnownState(p.depthState) && KnownState(p.motionState)
      && KnownState(p.exposureState) && KnownState(p.reactiveState) && KnownState(p.compositionState)
      && KnownState(p.outputState)
    case OptionalResourceState =>
      && (p.exposure != 0 ==> p.exposureState != 0) && (p.reactive != 0 ==> p.reactiveState != 0)
      && (p.composition != 0 ==> p.compositionState != 0)
    case NonzeroRenderSize => Nonempty(Extent(p.renderWidth, p.renderHeight))
    case RenderSizeInContext => Fits(Extent(p.renderWidth, p.renderHeight), create.backend.input)
    case WholeUpscaleSize => p.upscaleWidth == 0 <==> p.upscaleHeight == 0
    case UpscaleSizeInContext => Nonempty(Upscale(create, p)) && Fits(Upscale(create, p), create.backend.output)
    case FiniteJitter => IsFinite(p.jitterX) && IsFinite(p.jitterY)
    case FiniteMotionScale => IsFinite(p.motionScaleX) && IsFinite(p.motionScaleY)
    case ValidSharpness => AtLeastZero(p.sharpness) && AtMost(p.sharpness, ONE)
    case ValidFrameTimeDelta => AtLeastZero(p.frameTimeDelta)
    case ValidPreExposure => Positive(p.preExposure)
    case FiniteCameraPlanes => IsFinite(p.cameraNear) && IsFinite(p.cameraFar)
    case ValidCameraFov => Positive(p.cameraFovVertical) && AtMost(p.cameraFovVertical, PI)
    case ValidViewSpaceScale => AtLeastZero(p.viewSpaceToMeters)
    case ValidBooleans => p.reset <= 1 && p.enableSharpening <= 1
    case KnownDispatchFlags => KnownFlags(p.flags)
    case OneColorTransfer => !(WantsSrgb(p.flags) && WantsPq(p.flags))
    case NoDebugView => !WantsDebugView(p.flags)
  }

  ghost predicate FirstViolated(c: Clause, create: CreateContract, p: DispatchPacket) {
    !Satisfied(c, create, p) && forall d :: Rank(d) < Rank(c) ==> Satisfied(d, create, p)
  }

  ghost predicate Accepted(create: CreateContract, p: DispatchPacket) {
    forall c :: Satisfied(c, create, p)
  }

  datatype Verdict = Verdict(status: Status, detail: string, output: FrameContract)

  /** The specification of `validateFrame`: report the first violated clause and leave the
      output alone, or translate. */
  ghost predicate Judges(create: CreateContract, p: DispatchPacket, previous: FrameContract, v: Verdict) {
    || (Accepted(create, p) && v == Verdict(Ok, "ok", Translate(create, p)))
    || exists c :: FirstViolated(c, create, p)
                   && v == Verdict(if c.NoDebugView? then Unsupported else InvalidParameter, Reason(c), previous)
  }

  function FullRect(e: Extent): Rect {
    Rect(0, 0, e.width, e.height)
  }

  function Translate(create: CreateContract, p: DispatchPacket): FrameContract {
    FrameContract(
      TranslateBackend(create, p), TranslateOperations(p),
      p.frameTimeDelta, p.cameraNear, p.cameraFar, p.cameraFovVertical, p.viewSpaceToMeters)
  }

  function TranslateBackend(create: CreateContract, p: DispatchPacket): FrameInfo {
    var render := Extent(p.renderWidth, p.renderHeight);
    var upscale := Upscale(create, p);
    FrameInfo(
      p.color, p.depth, p.motionVectors, p.output,
      Parameter(p.exposure, p.exposure != 0), Parameter(p.reactive, p.reactive != 0),
      Parameter(p.composition, p.composition != 0),
      render, FullRect(render), FullRect(render),
      FullRect(if create.backend.LowResolutionMotionVectors() then render else upscale),
      FullRect(render), FullRect(upscale),
      Parameter(p.jitterX, true), Parameter(p.jitterY, true),
      Parameter(p.motionScaleX, true), Parameter(p.motionScaleY, true),
      Parameter(p.preExposure, true), Parameter(p.reset != 0, true),
      Exposure(create.apiFlags, p))
  }

  function Exposure(apiFlags: bv32, p: DispatchPacket): ExposureMode {
    if apiFlags & API_AUTO_EXPOSURE != 0 then Automatic
    else if p.exposure != 0 then Texture else NoExposure
  }

  function TranslateOperations(p: DispatchPacket): FrameOperations {
    FrameOperations(
      if WantsSrgb(p.flags) then SRGB else if WantsPq(p.flags) then PQ else Linear,
      p.composition != 0, p.enableSharpening != 0, p.sharpness, true)
  }

  lemma CombinedStateTest(a: bv32, b: bv32, c: bv32, d: bv32, e: bv32, f: bv32, g: bv32)
    ensures (a | b | c | d | e | f | g) & UNKNOWN_RESOURCE_STATES == 0 <==>
            KnownState(a) && KnownState(b) && KnownState(c) && KnownState(d) && KnownState(e) && KnownState(f) && KnownState(g)
  {
  }

  /** The upper bounds are comparisons of the numbers the bits denote. */
  lemma BoundIsOfValues(x: Float, bound: Float)
    requires IsFinite(x) && IsFinite(bound)
    ensures AtMost(x, bound) <==> Value(x) <= Value(bound)
  {
    KeyOrdersValues(bound, x);
  }

  /** So are the tests of sign. */
  lemma SignTestsAreOfValues(x: Float)
    requires IsFinite(x)
    ensures AtLeastZero(x) <==> Value(x) >= 0
    ensures Positive(x) <==> Value(x) > 0
  {
    KeyIsSignedMagnitude(x);
  }

  predicate Less(x: Float, y: Float)
    requires IsFinite(x) && IsFinite(y)
  {
    Key(x) < Key(y)
  }

  /** `validateFrame`, with its tests in the order and form of the code. */
  method ValidateFrame(create: CreateContract, p: DispatchPacket, previous: FrameContract) returns (v: Verdict)
    ensures Judges(create, p, previous, v)
  {
    var c, detail := FirstFailure(create, p);
    if c.None? {
      return Verdict(Ok, "ok", Translate(create, p));
    }
    return Verdict(if c.value.NoDebugView? then Unsupported else InvalidParameter, detail, previous);
  }

  method FirstFailure(create: CreateContract, p: DispatchPacket) returns (c: Option<Clause>, detail: string)
    ensures c.None? ==> Accepted(create, p)
    ensures c.Some? ==> FirstViolated(c.value, create, p) && detail == Reason(c.value)
  {
    if p.commandList == 0 || p.color == 0 || p.depth == 0 || p.motionVectors == 0 || p.output == 0 {
      return Some(RequiredResource), "missing_required_resource";
    }
    if p.colorState == 0 || p.depthState == 0 || p.motionState == 0 || p.outputState == 0 {
      return Some(RequiredResourceState), "missing_required_resource_state";
    }
    CombinedStateTest(p.colorState, p.depthState, p.motionState, p.exposureState, p.reactiveState, p.compositionState, p.outputState);
    if (p.colorState | p.depthState | p.motionState | p.exposureState | p.reactiveState | p.compositionState | p.outputState)
       & UNKNOWN_RESOURCE_STATES != 0 {
      return Some(KnownResourceStates), "unknown_resource_state_bits";
    }
    if (p.exposure != 0 && p.exposureState == 0) || (p.reactive != 0 && p.reactiveState == 0)
       || (p.composition != 0 && p.compositionState == 0) {
      return Some(OptionalResourceState), "missing_optional_resource_state";
    }
    c, detail := FirstSizeFailure(create, p);
  }

  method FirstSizeFailure(create: CreateContract, p: DispatchPacket) returns (c: Option<Clause>, detail: string)
    requires forall d :: Rank(d) < 4 ==> Satisfied(d, create, p)
    ensures c.None? ==> Accepted(create, p)
    ensures c.Some? ==> FirstViolated(c.value, create, p) && detail == Reason(c.value)
  {
    var defaultUpscale := p.upscaleWidth == 0 && p.upscaleHeight == 0;
    var upscaleWidth := if defaultUpscale then create.backend.output.width else p.upscaleWidth;
    var upscaleHeight := if defaultUpscale then create.backend.output.height else p.upscaleHeight;
    if p.renderWidth == 0 || p.renderHeight == 0 {
      return Some(NonzeroRenderSize), "zero_render_size";
    }
    if p.renderWidth > create.backend.input.width || p.renderHeight > create.backend.input.height {
      return Some(RenderSizeInContext), "render_size_exceeds_context";
    }
    if !defaultUpscale && (p.upscaleWidth == 0 || p.upscaleHeight == 0) {
      return Some(WholeUpscaleSize), "partial_zero_upscale_size";
    }
    if upscaleWidth == 0 || upscaleHeight == 0 || upscaleWidth > create.backend.output.width
       || upscaleHeight > create.backend.output.height {
      return Some(UpscaleSizeInContext), "upscale_size_exceeds_context";
    }
    c, detail := FirstScalarFailure(create, p);
  }

  method FirstScalarFailure(create: CreateContract, p: DispatchPacket) returns (c: Option<Clause>, detail: string)
    requires forall d :: Rank(d) < 8 ==> Satisfied(d, create, p)
    ensures c.None? ==> Accepted(create, p)
    ensures c.Some? ==> FirstViolated(c.value, create, p) && detail == Reason(c.value)
  {
    var zero: Float := 0;
    if !IsFinite(p.jitterX) || !IsFinite(p.jitterY) { return Some(FiniteJitter), "nonfinite_jitter"; }
    if !IsFinite(p.motionScaleX) || !IsFinite(p.motionScaleY) { return Some(FiniteMotionScale), "nonfinite_motion_scale"; }
    if !IsFinite(p.sharpness) || Less(p.sharpness, zero) || Less(ONE, p.sharpness) { return Some(ValidSharpness), "invalid_sharpness"; }
    if !IsFinite(p.frameTimeDelta) || Less(p.frameTimeDelta, zero) { return Some(ValidFrameTimeDelta), "invalid_frame_time_delta"; }
    if !IsFinite(p.preExposure) || !Less(zero, p.preExposure) { return Some(ValidPreExposure), "invalid_pre_exposure"; }
    c, detail := FirstCameraFailure(create, p);
  }

  method FirstCameraFailure(create: CreateContract, p: DispatchPacket) returns (c: Option<Clause>, detail: string)
    requires forall d :: Rank(d) < 13 ==> Satisfied(d, create, p)
    ensures c.None? ==> Accepted(create, p)
    ensures c.Some? ==> FirstViolated(c.value, create, p) && detail == Reason(c.value)
  {
    var zero: Float := 0;
    if !IsFinite(p.cameraNear) || !IsFinite(p.cameraFar) { return Some(FiniteCameraPlanes), "nonfinite_camera_planes"; }
    if !IsFinite(p.cameraFovVertical) || !Less(zero, p.cameraFovVertical) || Less(PI, p.cameraFovVertical) {
      return Some(ValidCameraFov), "invalid_camera_fov";
    }
    if !IsFinite(p.viewSpaceToMeters) || Less(p.viewSpaceToMeters, zero) { return Some(ValidViewSpaceScale), "invalid_view_space_scale"; }
    c, detail := FirstFlagFailure(create, p);
  }

  method FirstFlagFailure(create: CreateContract, p: DispatchPacket) returns (c: Option<Clause>, detail: string)
    requires forall d :: Rank(d) < 16 ==> Satisfied(d, create, p)
    ensures c.None? ==> Accepted(create, p)
    ensures c.Some? ==> FirstViolated(c.value, create, p) && detail == Reason(c.value)
  {
    if p.reset > 1 || p.enableSharpening > 1 { return Some(ValidBooleans), "invalid_boolean"; }
    if !KnownFlags(p.flags) { return Some(KnownDispatchFlags), "unknown_dispatch_flags"; }
    c, detail := FirstTransferFailure(create, p);
  }

  method FirstTransferFailure(create: CreateContract, p: DispatchPacket) returns (c: Option<Clause>, detail: string)
    requires forall d :: Rank(d) < 18 ==> Satisfied(d, create, p)
    ensures c.None? ==> Accepted(create, p)
    ensures c.Some? ==> FirstViolated(c.value, create, p) && detail == Reason(c.value)
  {
    if WantsSrgb(p.flags) && WantsPq(p.flags) { return Some(OneColorTransfer), "conflicting_color_transfer"; }
    if WantsDebugView(p.flags) { return Some(NoDebugView), "debug_view_unsupported"; }
    return None, "ok";
  }

  // ---- The specification is a function of its inputs ----

  lemma RankIsInjective(c: Clause, d: Clause)
    requires Rank(c) == Rank(d)
    ensures c == d
  {
  }

  lemma VerdictIsUnique(create: CreateContract, p: DispatchPacket, previous: FrameContract, v: Verdict, v': Verdict)
    requires Judges(create, p, previous, v) && Judges(create, p, previous, v')
    ensures v == v'
  {
    if !Accepted(create, p) {
      var c :| FirstViolated(c, create, p)
               && v == Verdict(if c.NoDebugView? then Unsupported else InvalidParameter, Reason(c), previous);
      var d :| FirstViolated(d, create, p)
               && v' == Verdict(if d.NoDebugView? then Unsupported else InvalidParameter, Reason(d), previous);
      if Rank(c) == Rank(d) { RankIsInjective(c, d); }
    }
  }

  /** Status, detail and output of every verdict: Ok exactly if no clause is violated,
      Unsupported exactly if the debug view is the only violation, and on anything but Ok the
      output is untouched and the detail names a violated clause all of whose predecessors hold. */
  lemma VerdictMeaning(create: CreateContract, p: DispatchPacket, previous: FrameContract, v: Verdict)
    requires Judges(create, p, previous, v)
    ensures v.status == Ok <==> forall c :: Satisfied(c, create, p)
    ensures v.status == Unsupported <==>
              !Satisfied(NoDebugView, create, p) && forall c: Clause :: !c.NoDebugView? ==> Satisfied(c, create, p)
    ensures v.status != Ok ==> v.output == previous
    ensures v.status != Ok ==> exists c :: FirstViolated(c, create, p) && v.detail == Reason(c)
  {
    if !Accepted(create, p) {
      var c :| FirstViolated(c, create, p)
               && v == Verdict(if c.NoDebugView? then Unsupported else InvalidParameter, Reason(c), previous);
      DebugViewIsLast(c, create, p);
    }
  }

  lemma DebugViewIsLast(c: Clause, create: CreateContract, p: DispatchPacket)
    requires FirstViolated(c, create, p)
    ensures c.NoDebugView? <==>
              !Satisfied(NoDebugView, create, p) && forall d: Clause :: !d.NoDebugView? ==> Satisfied(d, create, p)
  {
    if c.NoDebugView? {
      forall d: Clause | !d.NoDebugView?
        ensures Satisfied(d, create, p)
      {
        assert Rank(d) < Rank(c);
      }
    }
  }

  /** Two packets, or contexts, that satisfy the same clauses and translate alike get the
      same verdicts. */
  lemma SameClausesSameVerdict(create: CreateContract, p: DispatchPacket, create': CreateContract, p': DispatchPacket,
                               previous: FrameContract, v: Verdict)
    requires forall c :: Satisfied(c, create, p) <==> Satisfied(c, create', p')
    requires Accepted(create, p) ==> Translate(create, p) == Translate(create', p')
    ensures Judges(create, p, previous, v) ==> Judges(create', p', previous, v)
  {
    if Judges(create, p, previous, v) && !Accepted(create, p) {
      var c :| FirstViolated(c, create, p)
               && v == Verdict(if c.NoDebugView? then Unsupported else InvalidParameter, Reason(c), previous);
      assert FirstViolated(c, create', p');
    }
  }

  // ---- Two-run properties ----

  /** Asking for (0, 0) is asking for the full context size, for every context `validateCreate`
      can produce: same status, same detail, same contract. */
  lemma DefaultUpscaleIsFullSize(packet: CreatePacket, create: CreateContract, p: DispatchPacket,
                                 previous: FrameContract, v: Verdict)
    requires Creates(packet, create) && DefaultUpscale(p)
    ensures
      var explicit := p.(upscaleWidth := create.backend.output.width, upscaleHeight := create.backend.output.height);
      Judges(create, p, previous, v) <==> Judges(create, explicit, previous, v)
  {
    var explicit := p.(upscaleWidth := create.backend.output.width, upscaleHeight := create.backend.output.height);
    assert Upscale(create, p) == Upscale(create, explicit);
    forall c
      ensures Satisfied(c, create, p) <==> Satisfied(c, create, explicit)
    {
      SameUpscaleSameClause(c, create, p, create.backend.output.width, create.backend.output.height);
    }
    SameClausesSameVerdict(create, p, create, explicit, previous, v);
    SameClausesSameVerdict(create, explicit, create, p, previous, v);
  }

  lemma SameUpscaleSameClause(c: Clause, create: CreateContract, p: DispatchPacket, width: U32, height: U32)
    requires
      var p' := p.(upscaleWidth := width, upscaleHeight := height);
      && Upscale(create, p) == Upscale(create, p')
      && (Satisfied(WholeUpscaleSize, create, p) <==> Satisfied(WholeUpscaleSize, create, p'))
    ensures Satisfied(c, create, p) <==> Satisfied(c, create, p.(upscaleWidth := width, upscaleHeight := height))
  {
    if Rank(c) < 4 {
      ResourceClausesIgnoreUpscale(c, create, p, width, height);
    } else if Rank(c) >= 16 {
      FlagClausesIgnoreUpscale(c, create, p, width, height);
    } else if Rank(c) >= 8 {
      ScalarClausesIgnoreUpscale(c, create, p, width, height);
    }
  }

  lemma ResourceClausesIgnoreUpscale(c: Clause, create: CreateContract, p: DispatchPacket, width: U32, height: U32)
    requires Rank(c) < 4
    ensures Satisfied(c, create, p) <==> Satisfied(c, create, p.(upscaleWidth := width, upscaleHeight := height))
  {
    var p' := p.(upscaleWidth := width, upscaleHeight := height);
    match c
    case RequiredResource =>
    case RequiredResourceState =>
    case KnownResourceStates =>
      assert p'.colorState == p.colorState && p'.depthState == p.depthState && p'.motionState == p.motionState;
      assert p'.exposureState == p.exposureState && p'.reactiveState == p.reactiveState;
      assert p'.compositionState == p.compositionState && p'.outputState == p.outputState;
    case OptionalResourceState =>
  }

  lemma ScalarClausesIgnoreUpscale(c: Clause, create: CreateContract, p: DispatchPacket, width: U32, height: U32)
    requires 8 <= Rank(c) < 16
    ensures Satisfied(c, create, p) <==> Satisfied(c, create, p.(upscaleWidth := width, upscaleHeight := height))
  {
  }

  lemma FlagClausesIgnoreUpscale(c: Clause, create: CreateContract, p: DispatchPacket, width: U32, height: U32)
    requires Rank(c) >= 16
    ensures Satisfied(c, create, p) <==> Satisfied(c, create, p.(upscaleWidth := width, upscaleHeight := height))
  {
    var p' := p.(upscaleWidth := width, upscaleHeight := height);
    assert p'.flags == p.flags;
  }

  /** Enlarging both extents of a context, flags fixed, keeps every accepted frame of explicit
      size accepted, with the identical contract. */
  lemma LargerContextAcceptsMore(create: CreateContract, larger: CreateContract, p: DispatchPacket, previous: FrameContract)
    requires larger == create.(backend := create.backend.(input := larger.backend.input, output := larger.backend.output))
    requires Fits(create.backend.input, larger.backend.input) && Fits(create.backend.output, larger.backend.output)
    requires !DefaultUpscale(p) && Accepted(create, p)
    ensures Judges(larger, p, previous, Verdict(Ok, "ok", Translate(create, p)))
  {
    assert Upscale(larger, p) == Upscale(create, p);
    forall c
      ensures Satisfied(c, larger, p)
    {
      assert Satisfied(c, create, p);
    }
  }

  // ---- What an accepted frame gives the backend ----

  predicate Inside(r: Rect, e: Extent) {
    r.width > 0 && r.height > 0 && r.x + r.width <= e.width && r.y + r.height <= e.height
  }

  ghost predicate CarriesResources(p: DispatchPacket, f: FrameInfo) {
    && f.color == p.color && f.depth == p.depth && f.motionVectors == p.motionVectors && f.output == p.output
    && f.exposureTexture.value == p.exposure && (f.exposureTexture.present <==> p.exposure != 0)
    && f.reactiveMask.value == p.reactive && (f.reactiveMask.present <==> p.reactive != 0)
    && f.compositionMask.value == p.composition && (f.compositionMask.present <==> p.composition != 0)
  }

  ghost predicate CarriesGeometry(packet: CreatePacket, p: DispatchPacket, f: FrameInfo) {
    var full := p.upscaleWidth == 0;
    && f.inputContent == Extent(p.renderWidth, p.renderHeight)
    && f.colorRect == Rect(0, 0, p.renderWidth, p.renderHeight)
    && f.depthRect == f.colorRect && f.reactiveRect == f.colorRect
    && f.outputRect == Rect(0, 0, if full then packet.maxUpscaleWidth else p.upscaleWidth,
                                  if full then packet.maxUpscaleHeight else p.upscaleHeight)
    && f.motionRect == if packet.flags & 0x2 == 0 then f.colorRect else f.outputRect
  }

  ghost predicate CarriesScalars(packet: CreatePacket, p: DispatchPacket, f: FrameInfo) {
    && f.jitterOffsetX == Parameter(p.jitterX, true) && f.jitterOffsetY == Parameter(p.jitterY, true)
    && f.motionVectorScaleX == Parameter(p.motionScaleX, true) && f.motionVectorScaleY == Parameter(p.motionScaleY, true)
    && f.preExposure == Parameter(p.preExposure, true)
    && f.resetHistory.present && (f.resetHistory.value <==> p.reset == 1) && (!f.resetHistory.value <==> p.reset == 0)
    && (f.exposureMode == Automatic <==> packet.flags & 0x20 != 0)
    && (f.exposureMode == NoExposure <==> packet.flags & 0x20 == 0 && p.exposure == 0)
  }

  ghost predicate CarriesOperations(p: DispatchPacket, o: FrameOperations) {
    && (|| (p.flags == 0 && o.colorTransfer == Linear)
        || (p.flags == 2 && o.colorTransfer == SRGB)
        || (p.flags == 4 && o.colorTransfer == PQ))
    && (o.combineCompositionMask <==> p.composition != 0)
    && (o.sharpening <==> p.enableSharpening == 1) && (!o.sharpening <==> p.enableSharpening == 0)
    && o.sharpness == p.sharpness && o.capOutputToTemporalMaxScale
  }

  /** An accepted frame says to the backend what the packets said: every resource in its own
      place, rectangles of the sizes asked for, every number under its own name, and exactly
      one of the three colour transfers. */
  lemma AcceptedFrameCarriesThePacket(packet: CreatePacket, create: CreateContract, p: DispatchPacket,
                                      previous: FrameContract, v: Verdict)
    requires Creates(packet, create) && Judges(create, p, previous, v) && v.status == Ok
    ensures CarriesResources(p, v.output.backend)
    ensures CarriesGeometry(packet, p, v.output.backend)
    ensures CarriesScalars(packet, p, v.output.backend)
    ensures CarriesOperations(p, v.output.operations)
    ensures v.output.frameTimeDelta == p.frameTimeDelta
    ensures v.output.cameraNear == p.cameraNear && v.output.cameraFar == p.cameraFar
    ensures v.output.cameraFovVertical == p.cameraFovVertical && v.output.viewSpaceToMeters == p.viewSpaceToMeters
  {
    OkIsTranslated(create, p, previous, v);
    assert Satisfied(WholeUpscaleSize, create, p) && Satisfied(ValidBooleans, create, p);
    GeometryIsCarried(packet, create, p);
    ScalarsAreCarried(packet, create, p);
    OperationsAreCarried(create, p);
  }

  lemma GeometryIsCarried(packet: CreatePacket, create: CreateContract, p: DispatchPacket)
    requires Creates(packet, create) && (p.upscaleWidth == 0 <==> p.upscaleHeight == 0)
    ensures CarriesGeometry(packet, p, TranslateBackend(create, p))
  {
  }

  lemma ScalarsAreCarried(packet: CreatePacket, create: CreateContract, p: DispatchPacket)
    requires Creates(packet, create) && p.reset <= 1
    ensures CarriesScalars(packet, p, TranslateBackend(create, p))
  {
  }

  lemma OperationsAreCarried(create: CreateContract, p: DispatchPacket)
    requires Accepted(create, p)
    ensures CarriesOperations(p, TranslateOperations(p))
  {
    assert Satisfied(KnownDispatchFlags, create, p) && Satisfied(OneColorTransfer, create, p);
    assert Satisfied(NoDebugView, create, p) && Satisfied(ValidBooleans, create, p);
    AcceptedFlags(p.flags);
  }

  lemma OkIsTranslated(create: CreateContract, p: DispatchPacket, previous: FrameContract, v: Verdict)
    requires Judges(create, p, previous, v) && v.status == Ok
    ensures Accepted(create, p) && v.output == Translate(create, p)
  {
  }

  /** Every number of an accepted frame is finite, and the bounded ones are in their ranges. */
  lemma AcceptedNumbersAreInRange(create: CreateContract, p: DispatchPacket)
    requires Accepted(create, p)
    ensures IsFinite(p.jitterX) && IsFinite(p.jitterY) && IsFinite(p.motionScaleX) && IsFinite(p.motionScaleY)
    ensures IsFinite(p.cameraNear) && IsFinite(p.cameraFar)
    ensures IsFinite(p.sharpness) && 0 <= Value(p.sharpness) <= Value(ONE)
    ensures IsFinite(p.frameTimeDelta) && Value(p.frameTimeDelta) >= 0
    ensures IsFinite(p.preExposure) && Value(p.preExposure) > 0
    ensures IsFinite(p.cameraFovVertical) && 0 < Value(p.cameraFovVertical) <= Value(PI)
    ensures IsFinite(p.viewSpaceToMeters) && Value(p.viewSpaceToMeters) >= 0
  {
    AcceptedNumbersAreFinite(create, p);
    assert Satisfied(ValidSharpness, create, p) && Satisfied(ValidFrameTimeDelta, create, p);
    assert Satisfied(ValidPreExposure, create, p) && Satisfied(ValidCameraFov, create, p);
    assert Satisfied(ValidViewSpaceScale, create, p);
    RangeIsOfValues(p.sharpness, ONE);
    RangeIsOfValues(p.frameTimeDelta, ONE);
    RangeIsOfValues(p.preExposure, ONE);
    RangeIsOfValues(p.cameraFovVertical, PI);
    RangeIsOfValues(p.viewSpaceToMeters, ONE);
  }

  lemma AcceptedNumbersAreFinite(create: CreateContract, p: DispatchPacket)
    requires Accepted(create, p)
    ensures IsFinite(p.jitterX) && IsFinite(p.jitterY) && IsFinite(p.motionScaleX) && IsFinite(p.motionScaleY)
    ensures IsFinite(p.cameraNear) && IsFinite(p.cameraFar)
  {
    assert Satisfied(FiniteJitter, create, p) && Satisfied(FiniteMotionScale, create, p);
    assert Satisfied(FiniteCameraPlanes, create, p);
  }

  lemma RangeIsOfValues(x: Float, bound: Float)
    requires IsFinite(bound)
    ensures AtLeastZero(x) ==> IsFinite(x) && Value(x) >= 0
    ensures Positive(x) ==> IsFinite(x) && Value(x) > 0
    ensures AtMost(x, bound) ==> IsFinite(x) && Value(x) <= Value(bound)
  {
    if IsFinite(x) {
      SignTestsAreOfValues(x);
      BoundIsOfValues(x, bound);
    }
  }

  /** Resource states are ten bits. */
  lemma KnownStatesAreTenBits(state: bv32)
    ensures KnownState(state) <==> state < 0x400
  {
  }

  /** A resource is there and comes with a state of ten bits, not all zero. */
  predicate Usable(resource: U64, state: bv32) {
    resource != 0 && 0 < state < 0x400
  }

  /** In an accepted frame the four required resources are usable, and so is every optional one
      that is given. */
  lemma AcceptedResourcesAreUsable(create: CreateContract, p: DispatchPacket)
    requires Accepted(create, p)
    ensures p.commandList != 0 && Usable(p.color, p.colorState) && Usable(p.depth, p.depthState)
    ensures Usable(p.motionVectors, p.motionState) && Usable(p.output, p.outputState)
    ensures p.exposure != 0 ==> Usable(p.exposure, p.exposureState)
    ensures p.reactive != 0 ==> Usable(p.reactive, p.reactiveState)
    ensures p.composition != 0 ==> Usable(p.composition, p.compositionState)
  {
    AcceptedStatesAreKnown(create, p);
    assert Satisfied(RequiredResource, create, p) && Satisfied(RequiredResourceState, create, p);
    assert Satisfied(OptionalResourceState, create, p);
  }

  lemma AcceptedStatesAreKnown(create: CreateContract, p: DispatchPacket)
    requires Accepted(create, p)
    ensures p.colorState < 0x400 && p.depthState < 0x400 && p.motionState < 0x400 && p.outputState < 0x400
    ensures p.exposureState < 0x400 && p.reactiveState < 0x400 && p.compositionState < 0x400
  {
    assert Satisfied(KnownResourceStates, create, p);
    KnownStatesAreTenBits(p.colorState);
    KnownStatesAreTenBits(p.depthState);
    KnownStatesAreTenBits(p.motionState);
    KnownStatesAreTenBits(p.outputState);
    KnownStatesAreTenBits(p.exposureState);
    KnownStatesAreTenBits(p.reactiveState);
    KnownStatesAreTenBits(p.compositionState);
  }

  /** Of the dispatch flags only these three values are accepted. */
  lemma AcceptedFlags(flags: bv32)
    requires KnownFlags(flags) && !(WantsSrgb(flags) && WantsPq(flags)) && !WantsDebugView(flags)
    ensures flags == 0 || flags == 2 || flags == 4
    ensures WantsSrgb(flags) <==> flags == 2
    ensures WantsPq(flags) <==> flags == 4
  {
  }

  /** All five rectangles are nonempty and inside the context's output; colour, depth and
      reactive are inside its input; motion is at render or output resolution as created. */
  lemma RectanglesAreInside(packet: CreatePacket, create: CreateContract, p: DispatchPacket)
    requires Creates(packet, create) && Accepted(create, p)
    ensures
      var f := Translate(create, p).backend;
      && Inside(f.colorRect, create.backend.input) && Inside(f.depthRect, create.backend.input)
      && Inside(f.reactiveRect, create.backend.input)
      && Inside(f.colorRect, create.backend.output) && Inside(f.depthRect, create.backend.output)
      && Inside(f.reactiveRect, create.backend.output) && Inside(f.motionRect, create.backend.output)
      && Inside(f.outputRect, create.backend.output)
      && f.motionRect == (if packet.flags & DISPLAY_MOTION == 0 then f.colorRect else f.outputRect)
  {
    assert Satisfied(NonzeroRenderSize, create, p) && Satisfied(RenderSizeInContext, create, p);
    assert Satisfied(UpscaleSizeInContext, create, p);
  }

  /** Nothing makes a frame's output at least as large as its input: that holds exactly if the
      default size, or a size no smaller than the render size, was asked for. */
  lemma OutputCoversColorExactly(packet: CreatePacket, create: CreateContract, p: DispatchPacket)
    requires Creates(packet, create) && Accepted(create, p)
    ensures
      var f := Translate(create, p).backend;
      (f.outputRect.width >= f.colorRect.width && f.outputRect.height >= f.colorRect.height) <==>
      DefaultUpscale(p) || (p.upscaleWidth >= p.renderWidth && p.upscaleHeight >= p.renderHeight)
  {
    assert Satisfied(RenderSizeInContext, create, p);
  }

  /** A frame that is accepted although its output is smaller than its input. */
  lemma ShrinkingFrameIsAccepted()
    returns (packet: CreatePacket, create: CreateContract, p: DispatchPacket)
    ensures Creates(packet, create) && Accepted(create, p)
    ensures Translate(create, p).backend.outputRect.width < Translate(create, p).backend.colorRect.width
  {
    packet := CreatePacket(1, 0, 8, 8, 16, 16);
    create := CreateContract(CreateInfo(Extent(8, 8), Extent(16, 16), Parameter(MV_LOW_RES, true), Parameter(false, false)), 0);
    p := DispatchPacket(1, 1, 1, 1, 0, 0, 0, 1, 1, 1, 1, 0, 0, 0, 1, 8, 8, 4, 4,
                        0, 0, 0, 0, 0, 0, ONE, 0, 0, ONE, 0, 0, 0, 0);
  }

  /** The exposure mode, chosen from the API's bit 5, agrees with the backend's own reading of
      its bit 6. */
  lemma ExposureModesAgree(packet: CreatePacket, create: CreateContract, p: DispatchPacket)
    requires Creates(packet, create)
    ensures
      var mode := Translate(create, p).backend.exposureMode;
      && (mode == Automatic <==> create.backend.AutoExposure())
      && (mode == Texture <==> !create.backend.AutoExposure() && p.exposure != 0)
  {
  }

  /** Accepted create packets give equal backend descriptions exactly if they agree on the four
      sizes and the five translated bits. */
  lemma BackendDeterminesTheRequest(p: CreatePacket, c: CreateContract, p': CreatePacket, c': CreateContract)
    requires Creates(p, c) && Creates(p', c')
    ensures c.backend == c'.backend <==>
              && p.maxRenderWidth == p'.maxRenderWidth && p.maxRenderHeight == p'.maxRenderHeight
              && p.maxUpscaleWidth == p'.maxUpscaleWidth && p.maxUpscaleHeight == p'.maxUpscaleHeight
              && (p.flags ^ p'.flags) & 0x2f == 0
  {
    SameFlags(c.backend.featureFlags.value, c'.backend.featureFlags.value, p.flags, p'.flags);
  }

  lemma SameFlags(f: bv32, f': bv32, a: bv32, a': bv32)
    requires f & 0xffff_ffb0 == 0 && f' & 0xffff_ffb0 == 0
    requires (f & IS_HDR != 0 <==> a & HDR != 0) && (f' & IS_HDR != 0 <==> a' & HDR != 0)
    requires (f & MV_LOW_RES != 0 <==> a & DISPLAY_MOTION == 0) && (f' & MV_LOW_RES != 0 <==> a' & DISPLAY_MOTION == 0)
    requires (f & MV_JITTERED != 0 <==> a & JITTERED_MOTION != 0) && (f' & MV_JITTERED != 0 <==> a' & JITTERED_MOTION != 0)
    requires (f & DEPTH_INVERTED != 0 <==> a & API_DEPTH_INVERTED != 0) && (f' & DEPTH_INVERTED != 0 <==> a' & API_DEPTH_INVERTED != 0)
    requires (f & AUTO_EXPOSURE != 0 <==> a & API_AUTO_EXPOSURE != 0) && (f' & AUTO_EXPOSURE != 0 <==> a' & API_AUTO_EXPOSURE != 0)
    ensures f == f' <==> (a ^ a') & 0x2f == 0
  {
  }
}
