/**
 * The displacement handler (DisplacementHandler.cpp): an initial
 * displacement profile over a 1D grid, zero at both boundaries and shaped
 * by a vacancy fit function normalised so that the profile integrates to the
 * krypton fluence amplitude, plus the index of the single-vacancy cluster
 * that receives it.
 *
 * The fit function (VacancyFitFunction) is a parameter.
 */
module Displacement {
  import opened Wrappers
  import opened Composition
  import opened Network

  /** The exception thrown when the network has no V_1 cluster. */
  datatype DisplacementError = NoSingleVacancy

  /** The position i * hx of grid point i. */
  function Point(i: int, hx: real): real {
    (i as real) * hx
  }

  /**
   * The product a * b, kept behind a name so that the solver matches the
   * products in the definitions below as terms.
   */
  function Scale(a: real, b: real): real {
    a * b
  }

  /** The fit function sampled at grid point i. */
  function Sample(fit: real -> real, hx: real, i: int): real {
    fit(Point(i, hx))
  }

  /** The sum over the grid points i = 1..upTo of fit(i * hx) * hx. */
  function NormSum(fit: real -> real, hx: real, upTo: int): real
    decreases upTo
  {
    if upTo < 1 then 0.0 else NormSum(fit, hx, upTo - 1) + Scale(Sample(fit, hx, upTo), hx)
  }

  /**
   * krFluenceAmplitude / normFactor. The division is only used when there
   * are interior points; a zero norm there is a floating-point division by
   * zero, which the model replaces by 0.0.
   */
  function Normalized(amplitude: real, norm: real): real {
    if norm == 0.0 then 0.0 else amplitude / norm
  }

  /** The values factor * fit(i * hx) at the interior points i = 1..upTo. */
  function Interior(fit: real -> real, hx: real, factor: real, upTo: int): (r: seq<real>)
    ensures |r| == if upTo >= 1 then upTo else 0
    ensures forall k :: 0 <= k < |r| ==> r[k] == Scale(factor, Sample(fit, hx, k + 1))
    decreases upTo
  {
    if upTo < 1 then []
    else Interior(fit, hx, factor, upTo - 1) + [Scale(factor, Sample(fit, hx, upTo))]
  }

  /** The profile one call appends: 0.0, the nx - 2 interior values, 0.0. */
  function Profile(fit: real -> real, hx: real, nx: int, amplitude: real): seq<real> {
    [0.0] + Interior(fit, hx, Normalized(amplitude, NormSum(fit, hx, nx - 2)), nx - 2) + [0.0]
  }

  /**
   * The profile has max(nx, 2) entries, 0.0 at both ends, and at every
   * interior point i the normalised amplitude times fit(i * hx).
   */
  lemma ProfileShape(fit: real -> real, hx: real, nx: int, amplitude: real)
    ensures var p := Profile(fit, hx, nx, amplitude);
            && |p| == (if nx >= 2 then nx else 2)
            && p[0] == 0.0 && p[|p| - 1] == 0.0
            && forall i :: 1 <= i < |p| - 1 ==>
                 p[i] == Scale(Normalized(amplitude, NormSum(fit, hx, nx - 2)), Sample(fit, hx, i))
  {
    var factor := Normalized(amplitude, NormSum(fit, hx, nx - 2));
    var inner := Interior(fit, hx, factor, nx - 2);
    var p := Profile(fit, hx, nx, amplitude);
    forall i | 1 <= i < |p| - 1
      ensures p[i] == Scale(factor, Sample(fit, hx, i))
    {
      assert p[i] == inner[i - 1];
    }
  }

  /** The integral of a list of values on a grid of step hx: the sum of value * hx. */
  function Integral(s: seq<real>, hx: real): real {
    if s == [] then 0.0 else Integral(s[..|s| - 1], hx) + Scale(s[|s| - 1], hx)
  }

  /** Appending a value adds its share value * hx to the integral. */
  lemma IntegralSnoc(s: seq<real>, v: real, hx: real)
    ensures Integral(s + [v], hx) == Integral(s, hx) + Scale(v, hx)
  {
    assert (s + [v])[..|s|] == s;
  }

  lemma Distribute(factor: real, n: real, y: real, hx: real)
    ensures Scale(factor, n) + Scale(Scale(factor, y), hx) == Scale(factor, n + Scale(y, hx))
  {
  }

  /** The interior values integrate to factor times the norm. */
  lemma {:induction false} InteriorIntegral(fit: real -> real, hx: real, factor: real, upTo: int)
    ensures Integral(Interior(fit, hx, factor, upTo), hx) == Scale(factor, NormSum(fit, hx, upTo))
    decreases upTo
  {
    if upTo >= 1 {
      var y := Sample(fit, hx, upTo);
      IntegralSnoc(Interior(fit, hx, factor, upTo - 1), Scale(factor, y), hx);
      InteriorIntegral(fit, hx, factor, upTo - 1);
      Distribute(factor, NormSum(fit, hx, upTo - 1), y, hx);
    }
  }

  /**
   * The normalisation: whenever the norm factor is not zero, the interior of
   * the profile integrates exactly to the fluence amplitude.
   */
  lemma ProfileIntegratesToAmplitude(fit: real -> real, hx: real, nx: int, amplitude: real)
    requires NormSum(fit, hx, nx - 2) != 0.0
    ensures var p := Profile(fit, hx, nx, amplitude);
            Integral(p[1..|p| - 1], hx) == amplitude
  {
    var norm := NormSum(fit, hx, nx - 2);
    var inner := Interior(fit, hx, Normalized(amplitude, norm), nx - 2);
    Middle(inner, 0.0, 0.0);
    InteriorIntegral(fit, hx, Normalized(amplitude, norm), nx - 2);
    assert Scale(Normalized(amplitude, norm), norm) == amplitude;
  }

  /** The entries strictly between the two ends of [x] + m + [y] are m. */
  lemma Middle<T>(m: seq<T>, x: T, y: T)
    ensures ([x] + m + [y])[1..|m| + 1] == m
  {
  }

  /** The loop of initializeDisplacementHandler that sums fit(i * hx) * hx over the interior points. */
  method ComputeNormFactor(fit: real -> real, hx: real, nx: int) returns (norm: real)
    ensures norm == NormSum(fit, hx, nx - 2)
  {
    norm := 0.0;
    var i := 1;
    while i < nx - 1
      invariant 1 <= i <= (if nx >= 2 then nx - 1 else 1)
      invariant norm == NormSum(fit, hx, i - 1)
    {
      var x := Point(i, hx);
      norm := norm + Scale(fit(x), hx);
      i := i + 1;
    }
  }

  /** The loop of initializeDisplacementHandler that computes the normalised interior values. */
  method InteriorValues(fit: real -> real, hx: real, nx: int, krFluenceNormalized: real) returns (interior: seq<real>)
    ensures interior == Interior(fit, hx, krFluenceNormalized, nx - 2)
  {
    interior := [];
    var i := 1;
    while i < nx - 1
      invariant 1 <= i <= (if nx >= 2 then nx - 1 else 1)
      invariant interior == Interior(fit, hx, krFluenceNormalized, i - 1)
    {
      var x := Point(i, hx);
      interior := interior + [Scale(krFluenceNormalized, fit(x))];
      i := i + 1;
    }
  }

  class DisplacementHandler {
    var stepSize: real
    var krFluenceAmplitude: real
    var thresholdDisplacementEnergy: int
    /** The position of V_1 among the concentrations (its id - 1), or -1 before initialisation. */
    var displacementIndex: int
    var normFactor: real
    var initialDisplacementVec: seq<real>

    /** A fresh handler: everything zero, no index (-1) and an empty profile. */
    constructor ()
      ensures stepSize == 0.0 && krFluenceAmplitude == 0.0 && thresholdDisplacementEnergy == 0
      ensures displacementIndex == -1 && normFactor == 0.0 && initialDisplacementVec == []
    {
      stepSize := 0.0;
      krFluenceAmplitude := 0.0;
      thresholdDisplacementEnergy := 0;
      displacementIndex := -1;
      normFactor := 0.0;
      initialDisplacementVec := [];
    }

    /**
     * initializeDisplacementHandler: records the step, computes the norm
     * factor, appends the profile to the vector (which is never cleared) and
     * sets the index of V_1; when V_1 is absent it fails after the vector is
     * filled, leaving the index as it was.
     */
    method InitializeDisplacementHandler(net: ReactionNetwork, nx: int, hx: real, fit: real -> real)
      returns (r: Option<DisplacementError>)
      requires net.Valid()
      modifies this`stepSize, this`normFactor, this`initialDisplacementVec, this`displacementIndex
      ensures stepSize == hx
      ensures normFactor == NormSum(fit, hx, nx - 2)
      ensures initialDisplacementVec == old(initialDisplacementVec) + Profile(fit, hx, nx, krFluenceAmplitude)
      ensures r.Some? <==> net.Get("V", 1).None?
      ensures r.None? ==> displacementIndex == net.pool[net.Get("V", 1).value].id - 1
      ensures r.Some? ==> displacementIndex == old(displacementIndex)
    {
      stepSize := hx;
      var norm := ComputeNormFactor(fit, hx, nx);
      normFactor := norm;
      var interior := InteriorValues(fit, hx, nx, Normalized(krFluenceAmplitude, norm));
      initialDisplacementVec := initialDisplacementVec + ([0.0] + interior + [0.0]);
      var displacementCluster := net.Get("V", 1);
      if displacementCluster.None? {
        return Some(NoSingleVacancy);
      }
      displacementIndex := net.pool[displacementCluster.value].id - 1;
      return None;
    }

    /** getInitialDisplacementVec: the profile vector as stored, every initialisation's profile in turn. */
    function GetInitialDisplacementVec(): (r: seq<real>)
      reads this
      ensures r == initialDisplacementVec
    {
      initialDisplacementVec
    }

    /** getInitialDisplacementClusterIndex: the slot of V_1, or -1 before a successful initialisation. */
    function GetInitialDisplacementClusterIndex(): (r: int)
      reads this
      ensures r == displacementIndex
    {
      displacementIndex
    }

    /** getKrFluenceAmplitude: the amplitude the profile is normalised to. */
    function GetKrFluenceAmplitude(): (r: real)
      reads this
      ensures r == krFluenceAmplitude
    {
      krFluenceAmplitude
    }

    /** getDispEnergy: the threshold displacement energy. */
    function GetDispEnergy(): (r: int)
      reads this
      ensures r == thresholdDisplacementEnergy
    {
      thresholdDisplacementEnergy
    }

    /** setKrFluenceAmplitude: the getter returns the new amplitude. */
    method SetKrFluenceAmplitude(krFluence: real)
      modifies this`krFluenceAmplitude
      ensures GetKrFluenceAmplitude() == krFluence
    {
      krFluenceAmplitude := krFluence;
    }

    /** setDispEnergy: the getter returns the new threshold energy. */
    method SetDispEnergy(thresholdEnergy: int)
      modifies this`thresholdDisplacementEnergy
      ensures GetDispEnergy() == thresholdEnergy
    {
      thresholdDisplacementEnergy := thresholdEnergy;
    }
  }
}
