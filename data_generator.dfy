/**
 * The transmission physics of the synthetic spectrum generator: a catalogue of
 * optical materials, the Sellmeier refractive index, two-surface Fresnel loss, a
 * three-region absorption coefficient with Beer-Lambert attenuation, the catalogue of
 * defect signatures, and the deterministic part of generating one spectrum.
 */
module DataGenerator {
  import opened Wrappers
  import opened Analytic
  import opened RealSeqs

  // ---------------------------------------------------------------------------
  // Material catalogue
  // ---------------------------------------------------------------------------

  /** Sellmeier coefficients B1..B3 (dimensionless) and C1..C3 (square micrometres). */
  datatype SellmeierCoeffs = SellmeierCoeffs(b1: real, b2: real, b3: real, c1: real, c2: real, c3: real)

  datatype MaterialProperties = MaterialProperties(
    name: string,
    formula: string,
    uvCutoffNm: real,
    irCutoffNm: real,
    nVisible: real,
    peakTransmission: real,
    absorptionCoefBase: real,
    sellmeierCoeffs: Option<SellmeierCoeffs>,
    description: string,
    reference: string)

  /** What every catalogue entry satisfies. */
  predicate ValidMaterial(m: MaterialProperties)
  {
    && 0.0 < m.peakTransmission <= 1.0
    && m.uvCutoffNm < m.irCutoffNm
    && m.absorptionCoefBase > 0.0
    && m.nVisible >= 1.0
  }

  const MATERIAL_DATABASE: map<string, MaterialProperties> := map[
    "sapphire" := MaterialProperties(
      "Sapphire (α-Al₂O₃)", "Al2O3", 170.0, 5500.0, 1.7680, 0.93, 0.003,
      Some(SellmeierCoeffs(1.4313493, 0.65054713, 5.3414021, 0.0052799261, 0.0142382647, 325.01783)),
      "Single crystal corundum, excellent UV-IR transmission",
      "Malitson & Dodge (1972), Crystran Ltd"),
    "fused_silica" := MaterialProperties(
      "Fused Silica (SiO₂)", "SiO2", 180.0, 3500.0, 1.4585, 0.935, 0.001,
      Some(SellmeierCoeffs(0.6961663, 0.4079426, 0.8974794, 0.0046791, 0.0135121, 97.9340)),
      "Amorphous SiO₂, excellent UV transmission to 180nm",
      "Malitson (1965) J. Opt. Soc. Am. 55, 1205-1208"),
    "borosilicate_bk7" := MaterialProperties(
      "Borosilicate Crown Glass (N-BK7)", "SiO2-B2O3", 350.0, 2500.0, 1.5168, 0.92, 0.005,
      Some(SellmeierCoeffs(1.03961212, 0.231792344, 1.01046945, 0.00600069867, 0.0200179144, 103.560653)),
      "Standard optical glass, visible/NIR applications",
      "SCHOTT AG N-BK7 datasheet"),
    "soda_lime" := MaterialProperties(
      "Soda-Lime Glass", "SiO2-Na2O-CaO", 320.0, 2200.0, 1.5230, 0.89, 0.015, None,
      "Standard window glass, limited UV transmission",
      "Generic float glass specifications"),
    "quartz_crystalline" := MaterialProperties(
      "Crystalline Quartz", "SiO2", 180.0, 4000.0, 1.5443, 0.93, 0.002, None,
      "Natural crystalline SiO₂, birefringent",
      "RefractiveIndex.INFO database"),
    "calcium_fluoride" := MaterialProperties(
      "Calcium Fluoride (CaF₂)", "CaF2", 130.0, 10000.0, 1.4338, 0.95, 0.0005,
      Some(SellmeierCoeffs(0.5675888, 0.4710914, 3.8484723, 0.00252643, 0.01007833, 1200.556)),
      "Excellent UV-IR transmission, low dispersion",
      "RefractiveIndex.INFO database"),
    "zinc_selenide" := MaterialProperties(
      "Zinc Selenide (ZnSe)", "ZnSe", 550.0, 18000.0, 2.67, 0.71, 0.0005, None,
      "IR material for CO₂ laser optics, yellow color",
      "RefractiveIndex.INFO database"),
    "pmma" := MaterialProperties(
      "PMMA (Acrylic)", "C5O2H8", 380.0, 2200.0, 1.4914, 0.92, 0.02, None,
      "Optical grade polymer, visible range only",
      "Generic PMMA optical specifications")
  ]

  /** Every catalogue entry is a valid material. */
  lemma MaterialDatabaseValid()
    ensures forall key :: key in MATERIAL_DATABASE ==> ValidMaterial(MATERIAL_DATABASE[key])
  {
  }

  // ---------------------------------------------------------------------------
  // Refractive index and Fresnel loss
  // ---------------------------------------------------------------------------

  /** The wavelength (in micrometres) is not at a pole of the Sellmeier equation. */
  predicate OffPole(lambdaUm: real, c: SellmeierCoeffs)
  {
    var l2 := lambdaUm * lambdaUm;
    l2 != c.c1 && l2 != c.c2 && l2 != c.c3
  }

  /** n² from the three-term Sellmeier equation, before clamping. */
  function SellmeierN2(lambdaUm: real, c: SellmeierCoeffs): real
    requires OffPole(lambdaUm, c)
  {
    var l2 := lambdaUm * lambdaUm;
    1.0 + (c.b1 * l2 / (l2 - c.c1) + c.b2 * l2 / (l2 - c.c2) + c.b3 * l2 / (l2 - c.c3))
  }

  /** The refractive index n = sqrt(max(n², 1)): never below 1, and exact where n² >= 1. */
  function SellmeierN(lambdaUm: real, c: SellmeierCoeffs, sqrt: real -> real): (n: real)
    requires IsSqrt(sqrt) && OffPole(lambdaUm, c)
    ensures n >= 1.0
    ensures SellmeierN2(lambdaUm, c) >= 1.0 ==> n >= 0.0 && n * n == SellmeierN2(lambdaUm, c)
    ensures SellmeierN2(lambdaUm, c) <= 1.0 ==> n == 1.0
  {
    sqrt(Larger(SellmeierN2(lambdaUm, c), 1.0))
  }

  /** The index used at one wavelength (nm): Sellmeier when the material has coefficients. */
  function RefractiveIndex(m: MaterialProperties, lambdaNm: real, sqrt: real -> real): (n: real)
    requires IsSqrt(sqrt)
    requires m.sellmeierCoeffs.Some? ==> OffPole(lambdaNm / 1000.0, m.sellmeierCoeffs.value)
    ensures m.sellmeierCoeffs.Some? ==> n >= 1.0
    ensures m.sellmeierCoeffs.None? ==> n == m.nVisible
  {
    match m.sellmeierCoeffs
    case Some(c) => SellmeierN(lambdaNm / 1000.0, c, sqrt)
    case None => m.nVisible
  }

  /** Fused silica at 550 nm has n within 0.01 of the published 1.460. */
  lemma FusedSilicaIndexAt550(sqrt: real -> real)
    requires IsSqrt(sqrt)
    ensures "fused_silica" in MATERIAL_DATABASE
    ensures MATERIAL_DATABASE["fused_silica"].sellmeierCoeffs.Some?
    ensures var c := MATERIAL_DATABASE["fused_silica"].sellmeierCoeffs.value;
      OffPole(0.55, c) && 1.45 <= SellmeierN(0.55, c, sqrt) <= 1.47
  {
    var c := MATERIAL_DATABASE["fused_silica"].sellmeierCoeffs.value;
    var n2 := SellmeierN2(0.55, c);
    assert 2.1025 < n2 < 2.1609;
    var n := SellmeierN(0.55, c, sqrt);
    assert n >= 0.0 && n * n == n2;
    if n < 1.45 {
      SquareMonotone(n, 1.45);
      assert false;
    }
    if n > 1.47 {
      SquareMonotone(1.47, n);
      assert false;
    }
  }

  /** (n-1)/(n+1) lies in [0, 1) for n >= 1. */
  lemma ReflectionRatioBounds(n: real)
    requires n >= 1.0
    ensures 0.0 <= (n - 1.0) / (n + 1.0) < 1.0
  {
    var d := n + 1.0;
    var q := (n - 1.0) / d;
    assert q * d == n - 1.0;
    if q >= 1.0 {
      calc {
        q * d;
      >= 1.0 * d;
      > n - 1.0;
      }
    }
  }

  /** x² stays in [0, 1) for x in [0, 1). */
  lemma UnitSquareBelowOne(x: real)
    requires 0.0 <= x < 1.0
    ensures 0.0 <= x * x < 1.0
  {
    calc {
      x * x;
    <= x * 1.0;
    < 1.0;
    }
  }

  /** y² stays in (0, 1] for y in (0, 1]. */
  lemma UnitSquarePositive(y: real)
    requires 0.0 < y <= 1.0
    ensures 0.0 < y * y <= 1.0
  {
    calc {
      y * y;
    <= y * 1.0;
    <= 1.0;
    }
    assert y * y > 0.0;
  }

  /** The two-surface normal-incidence Fresnel factor (1 - R)², R = ((n-1)/(n+1))². */
  function FresnelLoss(n: real): (f: real)
    requires n != -1.0
    ensures n >= 1.0 ==> 0.0 < f <= 1.0
    ensures n == 1.0 ==> f == 1.0
  {
    var rho := (n - 1.0) / (n + 1.0);
    var rSingle := rho * rho;
    if n >= 1.0 then
      ReflectionRatioBounds(n);
      UnitSquareBelowOne(rho);
      UnitSquarePositive(1.0 - rSingle);
      (1.0 - rSingle) * (1.0 - rSingle)
    else
      (1.0 - rSingle) * (1.0 - rSingle)
  }

  // ---------------------------------------------------------------------------
  // Absorption
  // ---------------------------------------------------------------------------

  predicate InUvRegion(lambdaNm: real, m: MaterialProperties)
  {
    lambdaNm < m.uvCutoffNm + 50.0
  }

  predicate InIrRegion(lambdaNm: real, m: MaterialProperties)
  {
    lambdaNm > m.irCutoffNm - 200.0
  }

  /** The Urbach-tail term added inside the UV region. */
  function UvTerm(lambdaNm: real, m: MaterialProperties, exp: real -> real): real
  {
    exp((m.uvCutoffNm - lambdaNm) / 20.0) * 0.5
  }

  /** The multiphonon term added inside the IR region. */
  function IrTerm(lambdaNm: real, m: MaterialProperties, exp: real -> real): real
  {
    exp((lambdaNm - m.irCutoffNm) / 100.0) * 0.3
  }

  /**
   * The absorption coefficient (1/cm) at one wavelength: the base value, plus the UV
   * term inside the UV region, plus the IR term inside the IR region, both where the
   * regions overlap. It exceeds the base value exactly inside one of the regions.
   */
  function AbsorptionAt(lambdaNm: real, m: MaterialProperties, exp: real -> real): (a: real)
    requires IsExp(exp)
    ensures a >= m.absorptionCoefBase
    ensures a == m.absorptionCoefBase <==> !InUvRegion(lambdaNm, m) && !InIrRegion(lambdaNm, m)
  {
    m.absorptionCoefBase
      + (if InUvRegion(lambdaNm, m) then UvTerm(lambdaNm, m, exp) else 0.0)
      + (if InIrRegion(lambdaNm, m) then IrTerm(lambdaNm, m, exp) else 0.0)
  }

  /** Each region's term is added exactly where its mask selects, independently of the other. */
  lemma AbsorptionRegions(lambdaNm: real, m: MaterialProperties, exp: real -> real)
    requires IsExp(exp)
    ensures InUvRegion(lambdaNm, m) && InIrRegion(lambdaNm, m) ==>
      AbsorptionAt(lambdaNm, m, exp) == m.absorptionCoefBase + UvTerm(lambdaNm, m, exp) + IrTerm(lambdaNm, m, exp)
    ensures InUvRegion(lambdaNm, m) && !InIrRegion(lambdaNm, m) ==>
      AbsorptionAt(lambdaNm, m, exp) == m.absorptionCoefBase + UvTerm(lambdaNm, m, exp)
    ensures !InUvRegion(lambdaNm, m) && InIrRegion(lambdaNm, m) ==>
      AbsorptionAt(lambdaNm, m, exp) == m.absorptionCoefBase + IrTerm(lambdaNm, m, exp)
    ensures UvTerm(lambdaNm, m, exp) > 0.0 && IrTerm(lambdaNm, m, exp) > 0.0
  {
  }

  /** Approaching the UV cutoff from above (outside the IR region), absorption strictly rises. */
  lemma AbsorptionRisesTowardUvEdge(l1: real, l2: real, m: MaterialProperties, exp: real -> real)
    requires IsExp(exp)
    requires l1 < l2 && InUvRegion(l2, m) && !InIrRegion(l2, m)
    ensures AbsorptionAt(l1, m, exp) > AbsorptionAt(l2, m, exp)
  {
    assert (m.uvCutoffNm - l2) / 20.0 < (m.uvCutoffNm - l1) / 20.0;
    assert UvTerm(l2, m, exp) < UvTerm(l1, m, exp);
  }

  /** Approaching the IR cutoff from below (outside the UV region), absorption strictly rises. */
  lemma AbsorptionRisesTowardIrEdge(l1: real, l2: real, m: MaterialProperties, exp: real -> real)
    requires IsExp(exp)
    requires l1 < l2 && InIrRegion(l1, m) && !InUvRegion(l1, m)
    ensures AbsorptionAt(l1, m, exp) < AbsorptionAt(l2, m, exp)
  {
    assert (l1 - m.irCutoffNm) / 100.0 < (l2 - m.irCutoffNm) / 100.0;
    assert IrTerm(l1, m, exp) < IrTerm(l2, m, exp);
  }

  /**
   * The absorption coefficient over a wavelength array, built as the source builds it:
   * an array filled with the base value, the UV term added in place where the UV mask
   * holds, then the IR term added in place where the IR mask holds.
   */
  method AbsorptionCoefficient(wavelengthNm: seq<real>, m: MaterialProperties, exp: real -> real)
    returns (alpha: seq<real>)
    requires IsExp(exp)
    ensures |alpha| == |wavelengthNm|
    ensures forall i :: 0 <= i < |alpha| ==> alpha[i] == AbsorptionAt(wavelengthNm[i], m, exp)
  {
    var a := new real[|wavelengthNm|](_ => m.absorptionCoefBase);
    AddUvAbsorption(a, wavelengthNm, m, exp);
    AddIrAbsorption(a, wavelengthNm, m, exp);
    alpha := a[..];
  }

  /** The base value plus the UV term where the UV mask holds. */
  function WithUvTerm(lambdaNm: real, m: MaterialProperties, exp: real -> real): real
  {
    m.absorptionCoefBase + (if InUvRegion(lambdaNm, m) then UvTerm(lambdaNm, m, exp) else 0.0)
  }

  /** `alpha[uv_mask] += …`: the UV term added in place where the UV mask holds. */
  method AddUvAbsorption(a: array<real>, wavelengthNm: seq<real>, m: MaterialProperties, exp: real -> real)
    requires a.Length == |wavelengthNm|
    requires forall k :: 0 <= k < a.Length ==> a[k] == m.absorptionCoefBase
    modifies a
    ensures forall k :: 0 <= k < a.Length ==> a[k] == WithUvTerm(wavelengthNm[k], m, exp)
  {
    var i := 0;
    while i < a.Length
      invariant 0 <= i <= a.Length
      invariant forall k :: 0 <= k < i ==> a[k] == WithUvTerm(wavelengthNm[k], m, exp)
      invariant forall k :: i <= k < a.Length ==> a[k] == m.absorptionCoefBase
    {
      if InUvRegion(wavelengthNm[i], m) {
        a[i] := a[i] + UvTerm(wavelengthNm[i], m, exp);
      }
      i := i + 1;
    }
  }

  /** `alpha[ir_mask] += …`: the IR term added in place where the IR mask holds. */
  method AddIrAbsorption(a: array<real>, wavelengthNm: seq<real>, m: MaterialProperties, exp: real -> real)
    requires IsExp(exp) && a.Length == |wavelengthNm|
    requires forall k :: 0 <= k < a.Length ==> a[k] == WithUvTerm(wavelengthNm[k], m, exp)
    modifies a
    ensures forall k :: 0 <= k < a.Length ==> a[k] == AbsorptionAt(wavelengthNm[k], m, exp)
  {
    var i := 0;
    while i < a.Length
      invariant 0 <= i <= a.Length
      invariant forall k :: 0 <= k < i ==> a[k] == AbsorptionAt(wavelengthNm[k], m, exp)
      invariant forall k :: i <= k < a.Length ==> a[k] == WithUvTerm(wavelengthNm[k], m, exp)
    {
      if InIrRegion(wavelengthNm[i], m) {
        a[i] := a[i] + IrTerm(wavelengthNm[i], m, exp);
      }
      i := i + 1;
    }
  }

  // ---------------------------------------------------------------------------
  // Intrinsic transmission
  // ---------------------------------------------------------------------------

  function ThicknessCm(thicknessMm: real): real
  {
    thicknessMm / 10.0
  }

  /** The wavelengths (nm) at which a material's Sellmeier equation can be evaluated. */
  predicate OffPoles(wavelengthNm: seq<real>, m: MaterialProperties)
  {
    m.sellmeierCoeffs.Some? ==>
      forall i :: 0 <= i < |wavelengthNm| ==> OffPole(wavelengthNm[i] / 1000.0, m.sellmeierCoeffs.value)
  }

  /**
   * Beer-Lambert attenuation exp(-α·d) times the Fresnel factor of index n, times the
   * peak transmission; for a non-negative thickness it is positive and at most the peak.
   */
  function BeerLambert(alpha: real, thicknessCm: real, n: real, peak: real, exp: real -> real): (t: real)
    requires IsExp(exp) && alpha >= 0.0 && n >= 1.0 && 0.0 < peak <= 1.0
    ensures thicknessCm >= 0.0 ==> 0.0 < t <= peak
  {
    var internal := exp(-alpha * thicknessCm);
    if thicknessCm >= 0.0 then
      NegatedProductNonPositive(alpha, thicknessCm);
      ExpAtMostOne(exp, -alpha * thicknessCm);
      Attenuated(internal, FresnelLoss(n), peak)
    else
      Attenuated(internal, FresnelLoss(n), peak)
  }

  /** The transmission at one wavelength, before defects and noise. */
  function IntrinsicTransmission(
    lambdaNm: real, m: MaterialProperties, thicknessCm: real, exp: real -> real, sqrt: real -> real): (t: real)
    requires IsExp(exp) && IsSqrt(sqrt) && ValidMaterial(m)
    requires m.sellmeierCoeffs.Some? ==> OffPole(lambdaNm / 1000.0, m.sellmeierCoeffs.value)
    ensures thicknessCm >= 0.0 ==> 0.0 < t <= m.peakTransmission
  {
    BeerLambert(AbsorptionAt(lambdaNm, m, exp), thicknessCm, RefractiveIndex(m, lambdaNm, sqrt),
      m.peakTransmission, exp)
  }

  /** A peak value scaled by two factors in (0, 1] stays positive and at most the peak. */
  function Attenuated(internal: real, fresnel: real, peak: real): (t: real)
    ensures 0.0 < internal <= 1.0 && 0.0 < fresnel <= 1.0 && 0.0 < peak <= 1.0 ==> 0.0 < t <= peak
  {
    if 0.0 < internal <= 1.0 && 0.0 < fresnel <= 1.0 && 0.0 < peak <= 1.0 then
      ThreeFractions(internal, fresnel, peak);
      internal * fresnel * peak
    else
      internal * fresnel * peak
  }

  lemma NegatedProductNonPositive(a: real, b: real)
    requires a >= 0.0 && b >= 0.0
    ensures -a * b <= 0.0
  {
    assert a * b >= 0.0;
  }

  /** A product of two factors in (0, 1] is in (0, 1] and at most either factor. */
  lemma ProductOfFractions(a: real, b: real)
    requires 0.0 < a <= 1.0 && 0.0 < b <= 1.0
    ensures 0.0 < a * b <= b
  {
    calc {
      a * b;
    <= 1.0 * b;
    }
    assert a * b > 0.0;
  }

  /** A product of three factors in (0, 1] is positive and at most the last one. */
  lemma ThreeFractions(a: real, b: real, c: real)
    requires 0.0 < a <= 1.0 && 0.0 < b <= 1.0 && 0.0 < c <= 1.0
    ensures 0.0 < a * b * c <= c
  {
    ProductOfFractions(a, b);
    ProductOfFractions(a * b, c);
  }

  /** Through a sample of positive thickness, more absorption transmits strictly less. */
  lemma BeerLambertDecreasing(a1: real, a2: real, thicknessCm: real, n: real, peak: real, exp: real -> real)
    requires IsExp(exp) && 0.0 <= a1 < a2 && thicknessCm > 0.0 && n >= 1.0 && 0.0 < peak <= 1.0
    ensures BeerLambert(a2, thicknessCm, n, peak, exp) < BeerLambert(a1, thicknessCm, n, peak, exp)
  {
    var f := FresnelLoss(n);
    var x1, x2 := -a1 * thicknessCm, -a2 * thicknessCm;
    assert (a2 - a1) * thicknessCm > 0.0;
    assert x2 < x1;
    var i1, i2 := exp(x1), exp(x2);
    assert i2 < i1;
    var fp := f * peak;
    assert fp > 0.0;
    assert i2 * fp < i1 * fp;
    assert BeerLambert(a1, thicknessCm, n, peak, exp) == i1 * f * peak;
    assert BeerLambert(a2, thicknessCm, n, peak, exp) == i2 * f * peak;
  }

  /**
   * For a material without Sellmeier coefficients (a constant index) and a sample of
   * positive thickness, approaching the UV cutoff from above (outside the IR region)
   * the intrinsic transmission strictly falls.
   */
  lemma TransmissionFallsTowardUvEdge(
    l1: real, l2: real, m: MaterialProperties, thicknessCm: real, exp: real -> real, sqrt: real -> real)
    requires IsExp(exp) && IsSqrt(sqrt) && ValidMaterial(m) && m.sellmeierCoeffs.None?
    requires thicknessCm > 0.0
    requires l1 < l2 && InUvRegion(l2, m) && !InIrRegion(l2, m)
    ensures IntrinsicTransmission(l1, m, thicknessCm, exp, sqrt) < IntrinsicTransmission(l2, m, thicknessCm, exp, sqrt)
  {
    AbsorptionRisesTowardUvEdge(l1, l2, m, exp);
    BeerLambertDecreasing(AbsorptionAt(l2, m, exp), AbsorptionAt(l1, m, exp), thicknessCm,
      m.nVisible, m.peakTransmission, exp);
  }

  /**
   * For a material without Sellmeier coefficients and a sample of positive thickness,
   * approaching the IR cutoff from below (outside the UV region) the intrinsic
   * transmission strictly falls.
   */
  lemma TransmissionFallsTowardIrEdge(
    l1: real, l2: real, m: MaterialProperties, thicknessCm: real, exp: real -> real, sqrt: real -> real)
    requires IsExp(exp) && IsSqrt(sqrt) && ValidMaterial(m) && m.sellmeierCoeffs.None?
    requires thicknessCm > 0.0
    requires l1 < l2 && InIrRegion(l1, m) && !InUvRegion(l1, m)
    ensures IntrinsicTransmission(l2, m, thicknessCm, exp, sqrt) < IntrinsicTransmission(l1, m, thicknessCm, exp, sqrt)
  {
    AbsorptionRisesTowardIrEdge(l1, l2, m, exp);
    BeerLambertDecreasing(AbsorptionAt(l1, m, exp), AbsorptionAt(l2, m, exp), thicknessCm,
      m.nVisible, m.peakTransmission, exp);
  }

  // ---------------------------------------------------------------------------
  // Defects
  // ---------------------------------------------------------------------------

  datatype DefectProfile = DefectProfile(
    name: string,
    defectType: string,
    wavelengthCenterNm: Option<real>,
    bandwidthNm: Option<real>,
    transmissionLoss: real,
    description: string)

  const DEFECT_PROFILES: map<string, DefectProfile> := map[
    "surface_scratch" := DefectProfile(
      "Surface Scratch", "broadband", None, None, 0.12,
      "Surface damage causing wavelength-independent scattering"),
    "iron_impurity" := DefectProfile(
      "Iron Impurity (Fe³⁺)", "absorption_band", Some(380.0), Some(80.0), 0.20,
      "Common glass contaminant causing UV/blue absorption"),
    "hydroxyl_absorption" := DefectProfile(
      "OH⁻ Absorption", "absorption_band", Some(2730.0), Some(150.0), 0.35,
      "Water/hydroxyl absorption band in silica glasses"),
    "bubble_inclusion" := DefectProfile(
      "Gas Bubble/Inclusion", "scatter", None, None, 0.08,
      "Internal void causing Rayleigh-type scattering"),
    "thermal_stress" := DefectProfile(
      "Residual Thermal Stress", "broadband", None, None, 0.10,
      "Birefringence from improper annealing"),
    "coating_degradation" := DefectProfile(
      "AR Coating Defect", "absorption_band", Some(550.0), Some(120.0), 0.15,
      "Anti-reflective coating damage or delamination")
  ]

  /** The profile can be applied over these wavelengths without a missing field or a division by zero. */
  predicate Applicable(d: DefectProfile, wavelengthNm: seq<real>)
  {
    && (d.defectType == "absorption_band" ==>
          d.wavelengthCenterNm.Some? && d.bandwidthNm.Some? && d.bandwidthNm.value != 0.0)
    && (d.defectType == "scatter" ==> forall i :: 0 <= i < |wavelengthNm| ==> wavelengthNm[i] != 0.0)
  }

  /** A profile whose application can only lower a non-negative transmission. */
  predicate Attenuating(d: DefectProfile)
  {
    && 0.0 <= d.transmissionLoss <= 1.0
    && (d.defectType == "scatter" ==> 2.0 * d.transmissionLoss <= 1.0)
  }

  /** Every catalogued defect is one of the three known kinds, attenuates, and has what its kind needs. */
  lemma DefectProfilesValid()
    ensures forall key :: key in DEFECT_PROFILES ==>
      var d := DEFECT_PROFILES[key];
      && d.defectType in {"broadband", "absorption_band", "scatter"}
      && Attenuating(d)
      && (d.defectType == "absorption_band" ==>
            d.wavelengthCenterNm.Some? && d.bandwidthNm.Some? && d.bandwidthNm.value > 0.0)
  {
  }

  /** The Gaussian band shape exp(-½((λ-c)/(w/2.355))²), whose value lies in (0, 1]. */
  function Gaussian(lambdaNm: real, centerNm: real, bandwidthNm: real, exp: real -> real): (g: real)
    requires IsExp(exp) && bandwidthNm != 0.0
    ensures 0.0 < g <= 1.0
  {
    var z := (lambdaNm - centerNm) / (bandwidthNm / 2.355);
    var zz := z * z;
    assert zz >= 0.0;
    ExpAtMostOne(exp, -0.5 * zz);
    exp(-0.5 * zz)
  }

  /** Rayleigh-type scattering loss loss·(550/λ)⁴, clipped to [0, 2·loss]. */
  function ScatterLoss(lambdaNm: real, loss: real): (s: real)
    requires lambdaNm != 0.0
    ensures loss >= 0.0 ==> 0.0 <= s <= 2.0 * loss
  {
    var q := 550.0 / lambdaNm;
    Clip(loss * (q * q * q * q), 0.0, loss * 2.0)
  }

  /** The transmission after one defect, by the profile's type; an unknown type changes nothing. */
  function ApplyDefect(t: seq<real>, wavelengthNm: seq<real>, d: DefectProfile, exp: real -> real): (r: seq<real>)
    requires IsExp(exp) && |t| == |wavelengthNm| && Applicable(d, wavelengthNm)
    ensures |r| == |t|
  {
    if d.defectType == "broadband" then
      seq(|t|, i requires 0 <= i < |t| => t[i] * (1.0 - d.transmissionLoss))
    else if d.defectType == "absorption_band" then
      seq(|t|, i requires 0 <= i < |t| =>
        t[i] * (1.0 - d.transmissionLoss
                       * Gaussian(wavelengthNm[i], d.wavelengthCenterNm.value, d.bandwidthNm.value, exp)))
    else if d.defectType == "scatter" then
      seq(|t|, i requires 0 <= i < |t| => t[i] * (1.0 - ScatterLoss(wavelengthNm[i], d.transmissionLoss)))
    else
      t
  }

  /** A non-negative value scaled by a factor in [0, 1] stays in [0, value]. */
  lemma ScaleDown(x: real, f: real)
    requires x >= 0.0 && 0.0 <= f <= 1.0
    ensures 0.0 <= x * f <= x
  {
    calc {
      x * f;
    <= x * 1.0;
    }
  }

  /**
   * What each kind of defect does to one point: broadband scales by (1 - loss), an
   * unknown type leaves the point alone, and an attenuating profile never raises a
   * non-negative transmission nor makes it negative.
   */
  lemma ApplyDefectPointwise(t: seq<real>, wavelengthNm: seq<real>, d: DefectProfile, exp: real -> real, i: nat)
    requires IsExp(exp) && |t| == |wavelengthNm| && Applicable(d, wavelengthNm) && i < |t|
    ensures d.defectType == "broadband" ==> ApplyDefect(t, wavelengthNm, d, exp)[i] == t[i] * (1.0 - d.transmissionLoss)
    ensures d.defectType !in {"broadband", "absorption_band", "scatter"} ==> ApplyDefect(t, wavelengthNm, d, exp) == t
    ensures Attenuating(d) && t[i] >= 0.0 ==> 0.0 <= ApplyDefect(t, wavelengthNm, d, exp)[i] <= t[i]
  {
    if d.defectType == "broadband" {
      BroadbandAttenuates(t, wavelengthNm, d, exp, i);
    } else if d.defectType == "absorption_band" {
      AbsorptionBandAttenuates(t, wavelengthNm, d, exp, i);
    } else if d.defectType == "scatter" {
      ScatterAttenuates(t, wavelengthNm, d, exp, i);
    }
  }

  lemma BroadbandAttenuates(t: seq<real>, wavelengthNm: seq<real>, d: DefectProfile, exp: real -> real, i: nat)
    requires IsExp(exp) && |t| == |wavelengthNm| && Applicable(d, wavelengthNm) && i < |t|
    requires d.defectType == "broadband"
    ensures ApplyDefect(t, wavelengthNm, d, exp)[i] == t[i] * (1.0 - d.transmissionLoss)
    ensures Attenuating(d) && t[i] >= 0.0 ==> 0.0 <= ApplyDefect(t, wavelengthNm, d, exp)[i] <= t[i]
  {
    if Attenuating(d) && t[i] >= 0.0 {
      ScaleDown(t[i], 1.0 - d.transmissionLoss);
    }
  }

  lemma AbsorptionBandAttenuates(t: seq<real>, wavelengthNm: seq<real>, d: DefectProfile, exp: real -> real, i: nat)
    requires IsExp(exp) && |t| == |wavelengthNm| && Applicable(d, wavelengthNm) && i < |t|
    requires d.defectType == "absorption_band"
    ensures Attenuating(d) && t[i] >= 0.0 ==> 0.0 <= ApplyDefect(t, wavelengthNm, d, exp)[i] <= t[i]
  {
    var loss := d.transmissionLoss;
    var g := Gaussian(wavelengthNm[i], d.wavelengthCenterNm.value, d.bandwidthNm.value, exp);
    assert ApplyDefect(t, wavelengthNm, d, exp)[i] == t[i] * (1.0 - loss * g);
    if Attenuating(d) && t[i] >= 0.0 {
      ScaleDown(loss, g);
      ScaleDown(t[i], 1.0 - loss * g);
    }
  }

  lemma ScatterAttenuates(t: seq<real>, wavelengthNm: seq<real>, d: DefectProfile, exp: real -> real, i: nat)
    requires IsExp(exp) && |t| == |wavelengthNm| && Applicable(d, wavelengthNm) && i < |t|
    requires d.defectType == "scatter"
    ensures Attenuating(d) && t[i] >= 0.0 ==> 0.0 <= ApplyDefect(t, wavelengthNm, d, exp)[i] <= t[i]
  {
    var s := ScatterLoss(wavelengthNm[i], d.transmissionLoss);
    assert ApplyDefect(t, wavelengthNm, d, exp)[i] == t[i] * (1.0 - s);
    if Attenuating(d) && t[i] >= 0.0 {
      ScaleDown(t[i], 1.0 - s);
    }
  }

  /** Every catalogued defect whose key is listed can be applied over these wavelengths. */
  predicate DefectsApplicable(keys: seq<string>, wavelengthNm: seq<real>)
  {
    forall key :: key in keys && key in DEFECT_PROFILES ==> Applicable(DEFECT_PROFILES[key], wavelengthNm)
  }

  /** The listed defects applied in list order; keys not in the catalogue are skipped. */
  function ApplyDefects(t: seq<real>, wavelengthNm: seq<real>, keys: seq<string>, exp: real -> real): (r: seq<real>)
    requires IsExp(exp) && |t| == |wavelengthNm| && DefectsApplicable(keys, wavelengthNm)
    ensures |r| == |t|
  {
    if keys == [] then t
    else
      var init := keys[..|keys| - 1];
      var key := keys[|keys| - 1];
      assert DefectsApplicable(init, wavelengthNm);
      var prev := ApplyDefects(t, wavelengthNm, init, exp);
      if key in DEFECT_PROFILES then ApplyDefect(prev, wavelengthNm, DEFECT_PROFILES[key], exp) else prev
  }

  /** Applying a + b is applying a, then b. */
  lemma {:induction false} ApplyDefectsConcat(
    t: seq<real>, wavelengthNm: seq<real>, a: seq<string>, b: seq<string>, exp: real -> real)
    requires IsExp(exp) && |t| == |wavelengthNm| && DefectsApplicable(a + b, wavelengthNm)
    ensures DefectsApplicable(a, wavelengthNm) && DefectsApplicable(b, wavelengthNm)
    ensures ApplyDefects(t, wavelengthNm, a + b, exp)
         == ApplyDefects(ApplyDefects(t, wavelengthNm, a, exp), wavelengthNm, b, exp)
  {
    assert forall key :: key in a ==> key in a + b;
    assert forall key :: key in b ==> key in a + b;
    if b == [] {
      assert a + b == a;
    } else {
      var binit := b[..|b| - 1];
      assert (a + b)[..|a + b| - 1] == a + binit;
      ApplyDefectsConcat(t, wavelengthNm, a, binit, exp);
    }
  }

  /** The catalogued keys of a list, in order. */
  function KnownKeys(keys: seq<string>): (r: seq<string>)
    ensures forall key :: key in r <==> key in keys && key in DEFECT_PROFILES
  {
    if keys == [] then []
    else
      var init := KnownKeys(keys[..|keys| - 1]);
      var key := keys[|keys| - 1];
      assert keys == keys[..|keys| - 1] + [key];
      if key in DEFECT_PROFILES then init + [key] else init
  }

  /** Unknown keys have no effect: the result is that of the catalogued keys alone. */
  lemma {:induction false} ApplyDefectsSkipsUnknown(
    t: seq<real>, wavelengthNm: seq<real>, keys: seq<string>, exp: real -> real)
    requires IsExp(exp) && |t| == |wavelengthNm| && DefectsApplicable(keys, wavelengthNm)
    ensures DefectsApplicable(KnownKeys(keys), wavelengthNm)
    ensures ApplyDefects(t, wavelengthNm, keys, exp) == ApplyDefects(t, wavelengthNm, KnownKeys(keys), exp)
  {
    if keys != [] {
      var init := keys[..|keys| - 1];
      var key := keys[|keys| - 1];
      assert DefectsApplicable(init, wavelengthNm);
      ApplyDefectsSkipsUnknown(t, wavelengthNm, init, exp);
      if key in DEFECT_PROFILES {
        assert KnownKeys(keys)[..|KnownKeys(keys)| - 1] == KnownKeys(init);
      }
    }
  }

  /** Catalogued defects never raise a non-negative transmission nor make it negative. */
  lemma {:induction false} ApplyDefectsAttenuate(
    t: seq<real>, wavelengthNm: seq<real>, keys: seq<string>, exp: real -> real)
    requires IsExp(exp) && |t| == |wavelengthNm| && DefectsApplicable(keys, wavelengthNm)
    requires forall i :: 0 <= i < |t| ==> t[i] >= 0.0
    ensures forall i :: 0 <= i < |t| ==> 0.0 <= ApplyDefects(t, wavelengthNm, keys, exp)[i] <= t[i]
  {
    if keys != [] {
      var init := keys[..|keys| - 1];
      var key := keys[|keys| - 1];
      assert DefectsApplicable(init, wavelengthNm);
      ApplyDefectsAttenuate(t, wavelengthNm, init, exp);
      var prev := ApplyDefects(t, wavelengthNm, init, exp);
      if key in DEFECT_PROFILES {
        DefectProfilesValid();
        forall i | 0 <= i < |t|
          ensures 0.0 <= ApplyDefects(t, wavelengthNm, keys, exp)[i] <= t[i]
        {
          ApplyDefectPointwise(prev, wavelengthNm, DEFECT_PROFILES[key], exp, i);
        }
      }
    }
  }

  // ---------------------------------------------------------------------------
  // One spectrum
  // ---------------------------------------------------------------------------

  datatype GeneratorError = UnknownMaterial(key: string)

  /** The rows of one generated spectrum; the per-row constant columns are kept once. */
  datatype Spectrum = Spectrum(
    wavelengthNm: seq<real>,
    transmissionPercent: seq<real>,
    materialType: string,
    materialKey: string,
    thicknessMm: real,
    hasDefects: bool,
    defectTypes: string)

  /** The default grid 200, 202, ..., 2500 nm (`np.arange(200, 2501, 2)`). */
  function DefaultWavelengths(): (w: seq<real>)
    ensures |w| == 1151
    ensures forall i :: 0 <= i < |w| ==> w[i] == 200.0 + 2.0 * (i as real)
  {
    seq(1151, i requires 0 <= i < 1151 => 200.0 + 2.0 * (i as real))
  }

  function Grid(wavelengthNm: Option<seq<real>>): seq<real>
  {
    match wavelengthNm
    case Some(w) => w
    case None => DefaultWavelengths()
  }

  /** The keys joined by `sep` (`sep.join(keys)`). */
  function Join(keys: seq<string>, sep: string): string
  {
    if keys == [] then ""
    else if |keys| == 1 then keys[0]
    else Join(keys[..|keys| - 1], sep) + sep + keys[|keys| - 1]
  }

  /** The wavelengths over which a material and a defect list can be evaluated. */
  predicate Admissible(wavelengthNm: seq<real>, m: MaterialProperties, defects: seq<string>)
  {
    OffPoles(wavelengthNm, m) && DefectsApplicable(defects, wavelengthNm)
  }

  /** The intrinsic transmission at every wavelength of the grid. */
  function IntrinsicSpectrum(
    wavelengthNm: seq<real>, m: MaterialProperties, thicknessCm: real, exp: real -> real, sqrt: real -> real)
    : (t: seq<real>)
    requires IsExp(exp) && IsSqrt(sqrt) && ValidMaterial(m) && OffPoles(wavelengthNm, m)
    ensures |t| == |wavelengthNm|
    ensures thicknessCm >= 0.0 ==> forall i :: 0 <= i < |t| ==> 0.0 < t[i] <= m.peakTransmission
  {
    seq(|wavelengthNm|, i requires 0 <= i < |wavelengthNm| =>
      IntrinsicTransmission(wavelengthNm[i], m, thicknessCm, exp, sqrt))
  }

  /**
   * Noise added, the sum clipped to [0, 1] and scaled to percent: every value lies in
   * [0, 100], and a noiseless value already in [0, 1] is kept exactly.
   */
  function Percent(t: seq<real>, noise: seq<real>): (p: seq<real>)
    requires |noise| == |t|
    ensures |p| == |t|
    ensures forall i :: 0 <= i < |p| ==> 0.0 <= p[i] <= 100.0
    ensures forall i :: 0 <= i < |p| && noise[i] == 0.0 && 0.0 <= t[i] <= 1.0 ==> p[i] == 100.0 * t[i]
  {
    seq(|t|, i requires 0 <= i < |t| => Clip(t[i] + noise[i], 0.0, 1.0) * 100.0)
  }

  /**
   * The spectrum the generator produces for a catalogued material, given the noise
   * sample the random generator drew for each wavelength.
   */
  function SpectrumOf(
    materialKey: string, wavelengthNm: seq<real>, thicknessMm: real, defects: seq<string>,
    noise: seq<real>, exp: real -> real, sqrt: real -> real): Spectrum
    requires IsExp(exp) && IsSqrt(sqrt) && materialKey in MATERIAL_DATABASE
    requires |noise| == |wavelengthNm|
    requires Admissible(wavelengthNm, MATERIAL_DATABASE[materialKey], defects)
  {
    MaterialDatabaseValid();
    var m := MATERIAL_DATABASE[materialKey];
    var intrinsic := IntrinsicSpectrum(wavelengthNm, m, ThicknessCm(thicknessMm), exp, sqrt);
    var t := ApplyDefects(intrinsic, wavelengthNm, defects, exp);
    Spectrum(wavelengthNm, Percent(t, noise), m.name, materialKey, thicknessMm, defects != [],
      if defects != [] then Join(defects, ",") else "none")
  }

  /**
   * The generated percentages lie in [0, 100]; the defect columns record whether any
   * defect was requested and which; and without noise, for a non-negative thickness,
   * no point exceeds 100 times the material's peak transmission.
   */
  lemma SpectrumOfProperties(
    materialKey: string, wavelengthNm: seq<real>, thicknessMm: real, defects: seq<string>,
    noise: seq<real>, exp: real -> real, sqrt: real -> real)
    requires IsExp(exp) && IsSqrt(sqrt) && materialKey in MATERIAL_DATABASE
    requires |noise| == |wavelengthNm|
    requires Admissible(wavelengthNm, MATERIAL_DATABASE[materialKey], defects)
    ensures var s := SpectrumOf(materialKey, wavelengthNm, thicknessMm, defects, noise, exp, sqrt);
      && s.wavelengthNm == wavelengthNm
      && |s.transmissionPercent| == |wavelengthNm|
      && (forall i :: 0 <= i < |wavelengthNm| ==> 0.0 <= s.transmissionPercent[i] <= 100.0)
      && s.materialType == MATERIAL_DATABASE[materialKey].name
      && (s.hasDefects <==> defects != [])
      && s.defectTypes == (if defects == [] then "none" else Join(defects, ","))
      && ((forall i :: 0 <= i < |noise| ==> noise[i] == 0.0) && thicknessMm >= 0.0 ==>
            forall i :: 0 <= i < |wavelengthNm| ==>
              s.transmissionPercent[i] <= 100.0 * MATERIAL_DATABASE[materialKey].peakTransmission)
  {
    MaterialDatabaseValid();
    if (forall i :: 0 <= i < |noise| ==> noise[i] == 0.0) && thicknessMm >= 0.0 {
      SpectrumOfNoiseFree(materialKey, wavelengthNm, thicknessMm, defects, noise, exp, sqrt);
    }
  }

  /** Without noise and for a non-negative thickness, no point exceeds the material's peak. */
  lemma SpectrumOfNoiseFree(
    materialKey: string, wavelengthNm: seq<real>, thicknessMm: real, defects: seq<string>,
    noise: seq<real>, exp: real -> real, sqrt: real -> real)
    requires IsExp(exp) && IsSqrt(sqrt) && materialKey in MATERIAL_DATABASE
    requires |noise| == |wavelengthNm|
    requires Admissible(wavelengthNm, MATERIAL_DATABASE[materialKey], defects)
    requires (forall i :: 0 <= i < |noise| ==> noise[i] == 0.0) && thicknessMm >= 0.0
    ensures var s := SpectrumOf(materialKey, wavelengthNm, thicknessMm, defects, noise, exp, sqrt);
      forall i :: 0 <= i < |wavelengthNm| ==>
        s.transmissionPercent[i] <= 100.0 * MATERIAL_DATABASE[materialKey].peakTransmission
  {
    MaterialDatabaseValid();
    var m := MATERIAL_DATABASE[materialKey];
    var intrinsic := IntrinsicSpectrum(wavelengthNm, m, ThicknessCm(thicknessMm), exp, sqrt);
    ApplyDefectsAttenuate(intrinsic, wavelengthNm, defects, exp);
    var t := ApplyDefects(intrinsic, wavelengthNm, defects, exp);
    var p := Percent(t, noise);
    forall i | 0 <= i < |wavelengthNm|
      ensures p[i] <= 100.0 * m.peakTransmission
    {
      assert 0.0 <= t[i] <= m.peakTransmission <= 1.0;
    }
  }

  /**
   * `generate_spectrum` without its random draw: `noise` is the sample the generator
   * adds before clipping. An unknown material key is an error; otherwise the defect
   * list is applied in order, in a loop, to the intrinsic transmission.
   */
  method GenerateSpectrum(
    materialKey: string, wavelengthNm: Option<seq<real>>, thicknessMm: real, defects: seq<string>,
    noise: seq<real>, exp: real -> real, sqrt: real -> real)
    returns (r: Result<Spectrum, GeneratorError>)
    requires IsExp(exp) && IsSqrt(sqrt)
    requires |noise| == |Grid(wavelengthNm)|
    requires materialKey in MATERIAL_DATABASE ==>
      Admissible(Grid(wavelengthNm), MATERIAL_DATABASE[materialKey], defects)
    ensures materialKey !in MATERIAL_DATABASE ==> r == Err(UnknownMaterial(materialKey))
    ensures materialKey in MATERIAL_DATABASE ==>
      r == Ok(SpectrumOf(materialKey, Grid(wavelengthNm), thicknessMm, defects, noise, exp, sqrt))
  {
    if materialKey !in MATERIAL_DATABASE {
      return Err(UnknownMaterial(materialKey));
    }
    MaterialDatabaseValid();
    var m := MATERIAL_DATABASE[materialKey];
    var wl := Grid(wavelengthNm);
    var transmission := IntrinsicTransmissionOver(wl, m, ThicknessCm(thicknessMm), exp, sqrt);
    transmission := ApplyDefectsInOrder(transmission, wl, defects, exp);
    r := Ok(Spectrum(wl, Percent(transmission, noise), m.name, materialKey, thicknessMm, defects != [],
      if defects != [] then Join(defects, ",") else "none"));
  }

  /** The intrinsic transmission over a grid, from the absorption array and the index at each point. */
  method IntrinsicTransmissionOver(
    wl: seq<real>, m: MaterialProperties, thicknessCm: real, exp: real -> real, sqrt: real -> real)
    returns (transmission: seq<real>)
    requires IsExp(exp) && IsSqrt(sqrt) && ValidMaterial(m) && OffPoles(wl, m)
    ensures transmission == IntrinsicSpectrum(wl, m, thicknessCm, exp, sqrt)
  {
    var alpha := AbsorptionCoefficient(wl, m, exp);
    transmission := seq(|wl|, i requires 0 <= i < |wl| =>
      BeerLambert(alpha[i], thicknessCm, RefractiveIndex(m, wl[i], sqrt), m.peakTransmission, exp));
    ghost var intrinsic := IntrinsicSpectrum(wl, m, thicknessCm, exp, sqrt);
    forall i | 0 <= i < |wl|
      ensures transmission[i] == intrinsic[i]
    {
      assert alpha[i] == AbsorptionAt(wl[i], m, exp);
    }
  }

  /** The listed defects applied one after another, in list order, skipping unknown keys. */
  method ApplyDefectsInOrder(t: seq<real>, wl: seq<real>, defects: seq<string>, exp: real -> real)
    returns (transmission: seq<real>)
    requires IsExp(exp) && |t| == |wl| && DefectsApplicable(defects, wl)
    ensures transmission == ApplyDefects(t, wl, defects, exp)
  {
    transmission := t;
    var j := 0;
    while j < |defects|
      invariant 0 <= j <= |defects|
      invariant DefectsApplicable(defects[..j], wl)
      invariant transmission == ApplyDefects(t, wl, defects[..j], exp)
    {
      assert defects[..j + 1][..j] == defects[..j];
      if defects[j] in DEFECT_PROFILES {
        transmission := ApplyDefect(transmission, wl, DEFECT_PROFILES[defects[j]], exp);
      }
      j := j + 1;
    }
    assert defects[..j] == defects;
  }

  /** The default grid avoids every pole of every catalogued Sellmeier equation. */
  lemma DefaultGridOffPoles(key: string)
    requires key in MATERIAL_DATABASE
    ensures OffPoles(DefaultWavelengths(), MATERIAL_DATABASE[key])
  {
    var m := MATERIAL_DATABASE[key];
    var w := DefaultWavelengths();
    if m.sellmeierCoeffs.Some? {
      var c := m.sellmeierCoeffs.value;
      assert c.c1 < 0.03 && c.c2 < 0.03 && c.c3 > 97.0;
      forall i | 0 <= i < |w|
        ensures OffPole(w[i] / 1000.0, c)
      {
        var l := w[i] / 1000.0;
        assert 0.2 <= l <= 2.5;
        SquareBounds(l);
      }
    }
  }

  lemma SquareBounds(l: real)
    requires 0.2 <= l <= 2.5
    ensures 0.04 <= l * l <= 6.25
  {
    calc {
      l * l;
    >= 0.2 * l;
    >= 0.2 * 0.2;
    }
    calc {
      l * l;
    <= 2.5 * l;
    <= 2.5 * 2.5;
    }
  }
}
