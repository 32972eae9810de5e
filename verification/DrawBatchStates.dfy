/**
  When two draws may share a batched run, and the diagnosis of why two may not.
  Handles, hashes and arrays of them are opaque values that are only compared.
 */
module DrawBatchStates {
  import opened StateTables
  import opened FlatStates

  /** The key fields the batch rule compares, in groups of one diagnosis each. */
  datatype StateKey = StateKey(
    streamFrequencies: seq<nat>,
    vertexElementCount: nat, fvf: nat, vertexDeclHash: nat,
    vertexShaderKind: nat, pixelShaderKind: nat, vertexShaderHash: nat, pixelShaderHash: nat,
    textures: seq<nat>, textureLods: seq<nat>, textureMask: nat,
    textureStageStateHashes: seq<nat>,
    samplerStateHashes: seq<nat>, samplerStateMask: nat,
    renderStateHash: nat,
    colorAttachments: seq<nat>, depthStencil: nat, renderTargetMask: nat,
    viewportHash: nat, clipPlaneMask: nat)

  datatype StateRecord = StateRecord(
    key: StateKey,
    streamFrequencies: seq<nat>,
    textures: seq<nat>, textureLods: seq<nat>, textureMask: nat,
    renderStates: FlatStateSet,
    textureStageStates: seq<FlatStateSet>, samplerStates: seq<FlatStateSet>,
    colorAttachments: seq<nat>, depthStencil: nat, renderTargetMask: nat,
    viewport: nat, clipPlaneMask: nat)

  datatype ShaderLayout = ShaderLayout(
    declElements: seq<nat>, declFvf: nat, vertexShader: nat, pixelShader: nat,
    vertexConstantUsage: nat, pixelConstantUsage: nat, clipPlaneMask: nat)

  datatype Draw = Draw(state: StateRecord, layout: ShaderLayout)

  // ----- the batch rule -----

  predicate KeysBatchExceptRenderState(a: StateKey, b: StateKey) {
    a.(renderStateHash := b.renderStateHash) == b
  }

  ghost predicate StatesBatch(a: StateRecord, b: StateRecord) {
    && KeysBatchExceptRenderState(a.key, b.key)
    && a.(key := b.key, renderStates := b.renderStates) == b
    && RenderStatesBatch(a.renderStates, b.renderStates)
  }

  ghost predicate Batchable(a: Draw, b: Draw) {
    StatesBatch(a.state, b.state) && a.layout == b.layout
  }

  ghost predicate WellFormed(d: Draw) {
    Ascending(d.state.renderStates.Live())
  }

  method StatesCompatible(a: StateRecord, b: StateRecord) returns (compatible: bool)
    requires Ascending(a.renderStates.Live()) && Ascending(b.renderStates.Live())
    ensures compatible <==> StatesBatch(a, b)
  {
    var renderStates := FlatRenderStatesEqualExceptAlphaTest(a.renderStates, b.renderStates);
    compatible :=
      && a.key.vertexElementCount == b.key.vertexElementCount
      && a.key.streamFrequencies == b.key.streamFrequencies
      && a.key.fvf == b.key.fvf
      && a.key.vertexDeclHash == b.key.vertexDeclHash
      && a.key.vertexShaderKind == b.key.vertexShaderKind
      && a.key.pixelShaderKind == b.key.pixelShaderKind
      && a.key.vertexShaderHash == b.key.vertexShaderHash
      && a.key.pixelShaderHash == b.key.pixelShaderHash
      && a.key.textures == b.key.textures
      && a.key.textureLods == b.key.textureLods
      && a.key.textureMask == b.key.textureMask
      && a.key.textureStageStateHashes == b.key.textureStageStateHashes
      && a.key.samplerStateHashes == b.key.samplerStateHashes
      && a.key.samplerStateMask == b.key.samplerStateMask
      && a.key.colorAttachments == b.key.colorAttachments
      && a.key.depthStencil == b.key.depthStencil
      && a.key.renderTargetMask == b.key.renderTargetMask
      && a.key.viewportHash == b.key.viewportHash
      && a.key.clipPlaneMask == b.key.clipPlaneMask
      && a.streamFrequencies == b.streamFrequencies
      && a.textures == b.textures
      && a.textureLods == b.textureLods
      && a.textureMask == b.textureMask
      && renderStates
      && a.textureStageStates == b.textureStageStates
      && a.samplerStates == b.samplerStates
      && a.colorAttachments == b.colorAttachments
      && a.depthStencil == b.depthStencil
      && a.renderTargetMask == b.renderTargetMask
      && a.viewport == b.viewport
      && a.clipPlaneMask == b.clipPlaneMask;
  }

  /** The rule is an equivalence, so a run may be tested against any one of its draws. */
  lemma BatchableIsEquivalence(a: Draw, b: Draw, c: Draw)
    ensures Batchable(a, a)
    ensures Batchable(a, b) ==> Batchable(b, a)
    ensures Batchable(a, b) && Batchable(b, c) ==> Batchable(a, c)
  {
    RenderStatesEquivalence(a.state.renderStates, b.state.renderStates, c.state.renderStates);
    hide RenderStatesBatch;
  }

  lemma RenderStatesEquivalence(a: FlatStateSet, b: FlatStateSet, c: FlatStateSet)
    ensures RenderStatesBatch(a, a)
    ensures RenderStatesBatch(a, b) ==> RenderStatesBatch(b, a)
    ensures RenderStatesBatch(a, b) && RenderStatesBatch(b, c) ==> RenderStatesBatch(a, c)
  {
    AgreementEquivalence(a.Live(), b.Live(), c.Live());
    hide AgreeOutsideAlphaTest;
  }

  lemma AgreementEquivalence(a: seq<Entry>, b: seq<Entry>, c: seq<Entry>)
    ensures AgreeOutsideAlphaTest(a, a)
    ensures AgreeOutsideAlphaTest(a, b) ==> AgreeOutsideAlphaTest(b, a)
    ensures AgreeOutsideAlphaTest(a, b) && AgreeOutsideAlphaTest(b, c) ==> AgreeOutsideAlphaTest(a, c)
  {
    assert forall k: nat :: Differs(a, b, k) <==> Differs(b, a, k);
    if AgreeOutsideAlphaTest(a, b) && AgreeOutsideAlphaTest(b, c) {
      forall k: nat | !IsAlphaTest(k) ensures !Differs(a, c, k) {
        assert !Differs(a, b, k) && !Differs(b, c, k);
      }
    }
  }

  // ----- the diagnosis -----

  datatype IncompatClass =
    | Texture | Sampler | TextureStageState | RenderState | Shader | VertexDecl
    | Attachment | Viewport | ClipPlane | LayoutUsage | Unknown

  datatype Incompat = Incompat(firstDiff: IncompatClass, textureOnly: bool, renderStateDiff: DiffClass, firstRegister: nat)

  predicate SameFrequencies(a: Draw, b: Draw) {
    a.state.key.streamFrequencies == b.state.key.streamFrequencies && a.state.streamFrequencies == b.state.streamFrequencies
  }

  predicate SameTextures(a: Draw, b: Draw) {
    && a.state.key.textures == b.state.key.textures
    && a.state.key.textureLods == b.state.key.textureLods
    && a.state.key.textureMask == b.state.key.textureMask
    && a.state.textures == b.state.textures
    && a.state.textureLods == b.state.textureLods
    && a.state.textureMask == b.state.textureMask
  }

  predicate SameSamplers(a: Draw, b: Draw) {
    && a.state.key.samplerStateHashes == b.state.key.samplerStateHashes
    && a.state.key.samplerStateMask == b.state.key.samplerStateMask
    && a.state.samplerStates == b.state.samplerStates
  }

  predicate SameStages(a: Draw, b: Draw) {
    && a.state.key.textureStageStateHashes == b.state.key.textureStageStateHashes
    && a.state.textureStageStates == b.state.textureStageStates
  }

  predicate SameRenderStates(a: Draw, b: Draw) {
    a.state.key.renderStateHash == b.state.key.renderStateHash && a.state.renderStates == b.state.renderStates
  }

  predicate SameShaders(a: Draw, b: Draw) {
    && a.state.key.vertexShaderKind == b.state.key.vertexShaderKind
    && a.state.key.pixelShaderKind == b.state.key.pixelShaderKind
    && a.state.key.vertexShaderHash == b.state.key.vertexShaderHash
    && a.state.key.pixelShaderHash == b.state.key.pixelShaderHash
    && a.layout.vertexShader == b.layout.vertexShader
    && a.layout.pixelShader == b.layout.pixelShader
  }

  predicate SameDecls(a: Draw, b: Draw) {
    && a.state.key.vertexElementCount == b.state.key.vertexElementCount
    && a.state.key.fvf == b.state.key.fvf
    && a.state.key.vertexDeclHash == b.state.key.vertexDeclHash
    && a.layout.declElements == b.layout.declElements
    && a.layout.declFvf == b.layout.declFvf
  }

  predicate SameAttachments(a: Draw, b: Draw) {
    && a.state.key.colorAttachments == b.state.key.colorAttachments
    && a.state.key.depthStencil == b.state.key.depthStencil
    && a.state.key.renderTargetMask == b.state.key.renderTargetMask
    && a.state.colorAttachments == b.state.colorAttachments
    && a.state.depthStencil == b.state.depthStencil
    && a.state.renderTargetMask == b.state.renderTargetMask
  }

  predicate SameViewports(a: Draw, b: Draw) {
    a.state.key.viewportHash == b.state.key.viewportHash && a.state.viewport == b.state.viewport
  }

  predicate SameClips(a: Draw, b: Draw) {
    && a.state.key.clipPlaneMask == b.state.key.clipPlaneMask
    && a.state.clipPlaneMask == b.state.clipPlaneMask
    && a.layout.clipPlaneMask == b.layout.clipPlaneMask
  }

  predicate SameUsage(a: Draw, b: Draw) {
    a.layout.vertexConstantUsage == b.layout.vertexConstantUsage && a.layout.pixelConstantUsage == b.layout.pixelConstantUsage
  }

  predicate SameOutsideTexturesAndRenderStates(a: Draw, b: Draw) {
    && SameSamplers(a, b) && SameStages(a, b) && SameShaders(a, b) && SameDecls(a, b) && SameAttachments(a, b)
    && SameViewports(a, b) && SameClips(a, b) && SameUsage(a, b)
  }

  function FirstDiff(a: Draw, b: Draw): IncompatClass {
    if !SameTextures(a, b) then Texture
    else if !SameSamplers(a, b) then Sampler
    else if !SameStages(a, b) then TextureStageState
    else if !SameRenderStates(a, b) then RenderState
    else if !SameShaders(a, b) then Shader
    else if !SameDecls(a, b) then VertexDecl
    else if !SameAttachments(a, b) then Attachment
    else if !SameViewports(a, b) then Viewport
    else if !SameClips(a, b) then ClipPlane
    else if !SameUsage(a, b) then LayoutUsage
    else Unknown
  }

  /** The groups cover the rule: it holds exactly when all agree, render states up to the alpha test. */
  lemma GroupsCoverRule(a: Draw, b: Draw)
    ensures Batchable(a, b) <==>
      && SameFrequencies(a, b) && SameTextures(a, b) && SameOutsideTexturesAndRenderStates(a, b)
      && RenderStatesBatch(a.state.renderStates, b.state.renderStates)
  {
    hide RenderStatesBatch;
  }

  /** With their textures made equal. */
  function WithTexturesOf(a: Draw, b: Draw): Draw {
    a.(state := a.state.(
      textures := b.state.textures, textureLods := b.state.textureLods, textureMask := b.state.textureMask,
      key := a.state.key.(
        textures := b.state.key.textures, textureLods := b.state.key.textureLods, textureMask := b.state.key.textureMask)))
  }

  method ClassifyIncompatibility(a: Draw, b: Draw) returns (r: Incompat)
    requires WellFormed(a) && WellFormed(b)
    ensures Diagnoses(a, b, r)
  {
    r := Incompat(FirstDiff(a, b), false, NoDiff, 0);
    r := r.(textureOnly :=
      && !SameTextures(a, b) && SameRenderStates(a, b) && SameOutsideTexturesAndRenderStates(a, b) && SameFrequencies(a, b));
    hide DescribesDiff;
    if OnlyRenderStatesDiffer(a, b) {
      var diff, first := ClassifyRenderStateDiff(a.state.renderStates, b.state.renderStates);
      r := r.(renderStateDiff := diff, firstRegister := first);
      DescribedAlpha(a.state.renderStates.Live(), b.state.renderStates.Live(), diff, first);
    }
    DiagnosisSound(a, b, r);
  }

  /** The states that differ are exactly alpha-test states. */
  ghost predicate AlphaTestAlone(a: seq<Entry>, b: seq<Entry>) {
    AgreeOutsideAlphaTest(a, b) && exists k: nat :: IsAlphaTest(k) && Differs(a, b, k)
  }

  /** The group named differs, and all groups before it agree: textures, samplers, stages, render states and so on. */
  predicate NamesFirst(a: Draw, b: Draw, d: IncompatClass) {
    var textures, samplers, stages, states := SameTextures(a, b), SameSamplers(a, b), SameStages(a, b), SameRenderStates(a, b);
    var shaders, decls, attachments := SameShaders(a, b), SameDecls(a, b), SameAttachments(a, b);
    var viewports, clips, usage := SameViewports(a, b), SameClips(a, b), SameUsage(a, b);
    && (d == Texture <==> !textures)
    && (d == Sampler <==> textures && !samplers)
    && (d == TextureStageState <==> textures && samplers && !stages)
    && (d == RenderState <==> textures && samplers && stages && !states)
    && (d == Shader <==> textures && samplers && stages && states && !shaders)
    && (d == VertexDecl <==> textures && samplers && stages && states && shaders && !decls)
    && (d == Attachment <==> textures && samplers && stages && states && shaders && decls && !attachments)
    && (d == Viewport <==> textures && samplers && stages && states && shaders && decls && attachments && !viewports)
    && (d == ClipPlane <==>
          textures && samplers && stages && states && shaders && decls && attachments && viewports && !clips)
    && (d == LayoutUsage <==>
          textures && samplers && stages && states && shaders && decls && attachments && viewports && clips && !usage)
    && (d == Unknown <==>
          textures && samplers && stages && states && shaders && decls && attachments && viewports && clips && usage)
  }

  lemma FirstDiffNames(a: Draw, b: Draw)
    ensures NamesFirst(a, b, FirstDiff(a, b))
  {
  }

  /** What a diagnosis tells about the rule. */
  ghost predicate Diagnoses(a: Draw, b: Draw, r: Incompat) {
    var p, q := a.state.renderStates, b.state.renderStates;
    && r.firstDiff == FirstDiff(a, b)
    && NamesFirst(a, b, r.firstDiff)
    // no difference found: the pair batches, unless only stream frequencies differ
    && (r.firstDiff == Unknown ==> (Batchable(a, b) <==> SameFrequencies(a, b)))
    // alpha test alone, with nothing cut off: the pair batches; cut off, it does not
    && (r.renderStateDiff == AlphaTestOnly ==> (Batchable(a, b) <==> !p.overflow && !q.overflow))
    && (r.renderStateDiff == AlphaTestOnly ==> AlphaTestAlone(p.Live(), q.Live()))
    // a pair that batches is never diagnosed otherwise
    && (Batchable(a, b) ==>
          || r.firstDiff == Unknown
          || (r.firstDiff == RenderState && r.renderStateDiff in {AlphaTestOnly, NoDiff}))
    // equal textures are all that a texture-only pair lacks
    && (r.textureOnly <==> !SameTextures(a, b) && SameRenderStates(a, b) && Batchable(WithTexturesOf(a, b), b))
    && (r.textureOnly ==> !Batchable(a, b))
    && ReportsRenderStates(a, b, r)
  }

  predicate OnlyRenderStatesDiffer(a: Draw, b: Draw) {
    !SameRenderStates(a, b) && SameTextures(a, b) && SameOutsideTexturesAndRenderStates(a, b) && SameFrequencies(a, b)
  }

  /** The registers that differ are described when nothing else differs, and only then. */
  ghost predicate ReportsRenderStates(a: Draw, b: Draw, r: Incompat) {
    if OnlyRenderStatesDiffer(a, b) then
      DescribesDiff(a.state.renderStates.Live(), b.state.renderStates.Live(), r.renderStateDiff, r.firstRegister)
    else r.renderStateDiff == NoDiff && r.firstRegister == 0
  }

  lemma DescribedAlpha(p: seq<Entry>, q: seq<Entry>, diff: DiffClass, first: nat)
    requires DescribesDiff(p, q, diff, first)
    ensures diff == AlphaTestOnly <==> AlphaTestAlone(p, q)
    ensures AgreeOutsideAlphaTest(p, q) <==> diff in {AlphaTestOnly, NoDiff}
  {
    var states :| DiffSet(p, q, states) && Describes(diff, first, states);
    assert ClassOf(AlphaTestGroup, 0) == AlphaTestOnly;
    assert forall k :: GroupOf(k) == AlphaTestGroup <==> IsAlphaTest(k);
    hide GroupOf, Differs;
  }

  lemma OverflowedAlpha(p: FlatStateSet, q: FlatStateSet)
    requires AlphaTestAlone(p.Live(), q.Live())
    ensures RenderStatesBatch(p, q) <==> !p.overflow && !q.overflow
  {
    hide AgreeOutsideAlphaTest;
  }

  lemma SameLiveAgree(p: FlatStateSet, q: FlatStateSet)
    requires p == q
    ensures RenderStatesBatch(p, q)
  {
  }

  lemma DiagnosisSound(a: Draw, b: Draw, r: Incompat)
    requires r.firstDiff == FirstDiff(a, b)
    requires r.textureOnly <==>
      && !SameTextures(a, b) && SameRenderStates(a, b) && SameOutsideTexturesAndRenderStates(a, b) && SameFrequencies(a, b)
    requires ReportsRenderStates(a, b, r)
    requires
      var p, q := a.state.renderStates.Live(), b.state.renderStates.Live();
      if OnlyRenderStatesDiffer(a, b) then
        && (r.renderStateDiff == AlphaTestOnly <==> AlphaTestAlone(p, q))
        && (AgreeOutsideAlphaTest(p, q) <==> r.renderStateDiff in {AlphaTestOnly, NoDiff})
      else r.renderStateDiff == NoDiff
    ensures Diagnoses(a, b, r)
  {
    var p, q := a.state.renderStates, b.state.renderStates;
    FirstDiffNames(a, b);
    GroupsCoverRule(a, b);
    if p == q {
      SameLiveAgree(p, q);
    }
    if r.renderStateDiff == AlphaTestOnly {
      OverflowedAlpha(p, q);
    }
    GroupsCoverRule(WithTexturesOf(a, b), b);
    hide NamesFirst, ReportsRenderStates, Batchable, AgreeOutsideAlphaTest, AlphaTestAlone, Differs;
  }

  // ----- instances where the diagnosis misleads -----

  const PLAIN_KEY :=
    StateKey([0], 0, 0, 0, 0, 0, 0, 0, [], [], 0, [], [], 0, 0, [], 0, 0, 0, 0)

  function PlainDraw(frequency: nat, alphaTest: nat, cut: bool): Draw {
    Draw(
      StateRecord(
        PLAIN_KEY.(streamFrequencies := [frequency]), [frequency], [], [], 0,
        FlatStateSet([Entry(RS_ALPHA_TEST_ENABLE, alphaTest)], 1, 0, cut), [], [], [], 0, 0, 0, 0),
      ShaderLayout([], 0, 0, 0, 0, 0, 0))
  }

  /** Two cut sets that differ in an alpha-test state: named alpha test only, yet the pair does not batch. */
  lemma CutSetsMisnamed()
    ensures
      var a, b := PlainDraw(1, 0, true), PlainDraw(1, 1, true);
      && WellFormed(a) && WellFormed(b) && !Batchable(a, b)
      && forall r :: Diagnoses(a, b, r) ==> r.firstDiff == RenderState && r.renderStateDiff == AlphaTestOnly
  {
    var a, b := PlainDraw(1, 0, true), PlainDraw(1, 1, true);
    var p, q := a.state.renderStates.Live(), b.state.renderStates.Live();
    LookupAt(p, 0);
    LookupAt(q, 0);
    forall k: nat | k != RS_ALPHA_TEST_ENABLE ensures !Differs(p, q, k) {
      LookupMisses(p, k);
      LookupMisses(q, k);
    }
    assert Differs(p, q, RS_ALPHA_TEST_ENABLE);
    assert AlphaTestAlone(p, q);
    forall r | Diagnoses(a, b, r) ensures r.renderStateDiff == AlphaTestOnly {
      DescribedAlpha(p, q, r.renderStateDiff, r.firstRegister);
    }
  }

  /** Two draws that differ in stream frequency alone: no difference named, yet the pair does not batch. */
  lemma FrequencyUnnamed()
    ensures
      var a, b := PlainDraw(1, 0, false), PlainDraw(2, 0, false);
      && WellFormed(a) && WellFormed(b) && !Batchable(a, b)
      && forall r :: Diagnoses(a, b, r) ==> r.firstDiff == Unknown
  {
    hide Describes, DiffSet, Lookup;
  }
}
