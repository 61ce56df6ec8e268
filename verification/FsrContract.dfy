/** Validation and translation of FSR packets into the MetalFX backend's terms. */
module FsrContract {

  import opened Words
  import opened Binary32

  // ---- metalfx-contract ----

  datatype Parameter<+T> = Parameter(value: T, present: bool)
  datatype Extent = Extent(width: U32, height: U32)
  datatype Rect = Rect(x: U32, y: U32, width: U32, height: U32)

  const IS_HDR: bv32 := 0x1
  const MV_LOW_RES: bv32 := 0x2
  const MV_JITTERED: bv32 := 0x4
  const DEPTH_INVERTED: bv32 := 0x8
  const AUTO_EXPOSURE: bv32 := 0x40

  datatype CreateInfo = CreateInfo(input: Extent, output: Extent, featureFlags: Parameter<bv32>,
                                   outputSubrects: Parameter<bool>)
  {
    predicate Hdr() { featureFlags.value & IS_HDR != 0 }
    predicate LowResolutionMotionVectors() { featureFlags.value & MV_LOW_RES != 0 }
    predicate JitteredMotionVectors() { featureFlags.value & MV_JITTERED != 0 }
    predicate DepthInverted() { featureFlags.value & DEPTH_INVERTED != 0 }
    predicate AutoExposure() { featureFlags.value & AUTO_EXPOSURE != 0 }
  }

  datatype ExposureMode = NoExposure | Texture | Automatic
  datatype ColorTransfer = Linear | SRGB | PQ

  datatype FrameInfo = FrameInfo(
    color: U64, depth: U64, motionVectors: U64, output: U64,
    exposureTexture: Parameter<U64>, reactiveMask: Parameter<U64>, compositionMask: Parameter<U64>,
    inputContent: Extent,
    colorRect: Rect, depthRect: Rect, motionRect: Rect, reactiveRect: Rect, outputRect: Rect,
    jitterOffsetX: Parameter<Float>, jitterOffsetY: Parameter<Float>,
    motionVectorScaleX: Parameter<Float>, motionVectorScaleY: Parameter<Float>,
    preExposure: Parameter<Float>, resetHistory: Parameter<bool>,
    exposureMode: ExposureMode)

  datatype FrameOperations = FrameOperations(
    colorTransfer: ColorTransfer, combineCompositionMask: bool, sharpening: bool, sharpness: Float,
    capOutputToTemporalMaxScale: bool)

  // ---- Packets and contracts ----

  datatype CreatePacket = CreatePacket(
    device: U64, flags: bv32,
    maxRenderWidth: U32, maxRenderHeight: U32, maxUpscaleWidth: U32, maxUpscaleHeight: U32)

  datatype DispatchPacket = DispatchPacket(
    commandList: U64, color: U64, depth: U64, motionVectors: U64, exposure: U64,
    reactive: U64, composition: U64, output: U64,
    colorState: bv32, depthState: bv32, motionState: bv32, exposureState: bv32,
    reactiveState: bv32, compositionState: bv32, outputState: bv32,
    renderWidth: U32, renderHeight: U32, upscaleWidth: U32, upscaleHeight: U32,
    jitterX: Float, jitterY: Float, motionScaleX: Float, motionScaleY: Float,
    sharpness: Float, frameTimeDelta: Float, preExposure: Float,
    cameraNear: Float, cameraFar: Float, cameraFovVertical: Float, viewSpaceToMeters: Float,
    reset: U32, enableSharpening: U32, flags: bv32)

  datatype Status = Ok | InvalidParameter | Unsupported

  datatype CreateContract = CreateContract(backend: CreateInfo, apiFlags: bv32)

  datatype FrameContract = FrameContract(
    backend: FrameInfo, operations: FrameOperations, frameTimeDelta: Float,
    cameraNear: Float, cameraFar: Float, cameraFovVertical: Float, viewSpaceToMeters: Float)

  const HDR: bv32 := 0x1
  const DISPLAY_MOTION: bv32 := 0x2
  const JITTERED_MOTION: bv32 := 0x4
  const API_DEPTH_INVERTED: bv32 := 0x8
  const API_AUTO_EXPOSURE: bv32 := 0x20
  const UNKNOWN_CREATE_FLAGS: bv32 := 0xffff_fc00
  const DEBUG_VIEW: bv32 := 0x1
  const COLOR_SRGB: bv32 := 0x2
  const COLOR_PQ: bv32 := 0x4
  const UNKNOWN_DISPATCH_FLAGS: bv32 := 0xffff_fff8
  const UNKNOWN_RESOURCE_STATES: bv32 := 0xffff_fc00

  const ONE: Float := 0x3f80_0000
  const PI: Float := 0x4049_0fdb

  // ---- validateCreate ----

  /** What a context must satisfy to be created. */
  predicate CreateAccepted(p: CreatePacket) {
    && p.device != 0
    && 0 < p.maxRenderWidth <= p.maxUpscaleWidth
    && 0 < p.maxRenderHeight <= p.maxUpscaleHeight
    && p.flags & UNKNOWN_CREATE_FLAGS == 0
  }

  method ValidateCreate(input: CreatePacket, previous: CreateContract) returns (status: Status, output: CreateContract)
    ensures status == if CreateAccepted(input) then Ok else InvalidParameter
    ensures status != Ok ==> output == previous
    ensures status == Ok ==> Creates(input, output)
  {
    output := previous;
    if input.device == 0 || input.maxRenderWidth == 0 || input.maxRenderHeight == 0
       || input.maxUpscaleWidth == 0 || input.maxUpscaleHeight == 0
       || input.maxRenderWidth > input.maxUpscaleWidth || input.maxRenderHeight > input.maxUpscaleHeight
       || input.flags & UNKNOWN_CREATE_FLAGS != 0 {
      return InvalidParameter, output;
    }
    var flags: bv32 := 0;
    if input.flags & HDR != 0 { flags := flags | IS_HDR; }
    if input.flags & DISPLAY_MOTION == 0 { flags := flags | MV_LOW_RES; }
    if input.flags & JITTERED_MOTION != 0 { flags := flags | MV_JITTERED; }
    if input.flags & API_DEPTH_INVERTED != 0 { flags := flags | DEPTH_INVERTED; }
    if input.flags & API_AUTO_EXPOSURE != 0 { flags := flags | AUTO_EXPOSURE; }
    var backend := CreateInfo(
      Extent(input.maxRenderWidth, input.maxRenderHeight),
      Extent(input.maxUpscaleWidth, input.maxUpscaleHeight),
      Parameter(flags, true), Parameter(false, false));
    return Ok, CreateContract(backend, input.flags);
  }

  /** The contract says, through the backend's own accessors, what the packet asked for;
      low-resolution motion is the absence of display-resolution motion. */
  predicate Creates(p: CreatePacket, c: CreateContract) {
    && CreateAccepted(p)
    && c.apiFlags == p.flags
    && c.backend.input == Extent(p.maxRenderWidth, p.maxRenderHeight)
    && c.backend.output == Extent(p.maxUpscaleWidth, p.maxUpscaleHeight)
    && c.backend.featureFlags.present
    && c.backend.outputSubrects == Parameter(false, false)
    && (c.backend.Hdr() <==> p.flags & HDR != 0)
    && (c.backend.LowResolutionMotionVectors() <==> p.flags & DISPLAY_MOTION == 0)
    && (c.backend.JitteredMotionVectors() <==> p.flags & JITTERED_MOTION != 0)
    && (c.backend.DepthInverted() <==> p.flags & API_DEPTH_INVERTED != 0)
    && (c.backend.AutoExposure() <==> p.flags & API_AUTO_EXPOSURE != 0)
    && c.backend.featureFlags.value & 0xffff_ffb0 == 0
  }

  /** The backend's feature bits: bits 0, 2 and 3 of the request as they are, bit 1 negated,
      and bit 5 as bit 6. */
  lemma FeatureBits(p: CreatePacket, c: CreateContract)
    requires Creates(p, c)
    ensures c.backend.featureFlags.value == (p.flags & 0xd) | (!p.flags & 0x2) | ((p.flags & 0x20) << 1)
    ensures c.apiFlags == p.flags && p.flags < 0x400
    ensures c.backend.Hdr() <==> p.flags & 0x1 != 0
    ensures c.backend.DepthInverted() <==> p.flags & 0x8 != 0
  {
  }

  /** The bounds of the validation: one, and the float nearest to the decimal of the source for
      pi, which is 13176795 / 2^22. */
  lemma BoundsAreOneAndPi()
    ensures Sign(ONE) == 0 && Exponent(ONE) == 127 && Mantissa(ONE) == 0
    ensures Sign(PI) == 0 && Exponent(PI) == 128 && 0x80_0000 + Mantissa(PI) == 13176795
    ensures 2 * (13176795 * 100_000_000_000_000_000_000 - 314159265358979323846 * 0x40_0000) < 100_000_000_000_000_000_000
    ensures 2 * (314159265358979323846 * 0x40_0000 - 13176795 * 100_000_000_000_000_000_000) < 100_000_000_000_000_000_000
  {
  }
}
