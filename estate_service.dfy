/**
 * The real-estate assessment of `EstateService`: the surface of each room
 * ("environment"), the surface and price of the whole property, the largest
 * room, and the per-room breakdown, for a property whose district is looked up
 * in the district registry. Numbers are exact reals.
 */
module EstateService {
  import opened Wrappers
  import opened DistrictRepository

  /** A rectangular room. Dimensions are not validated by the service. */
  datatype Environment = Environment(name: string, length: real, width: real)

  /** A property: its name, the name of its district, and its rooms in input order. */
  datatype Estate = Estate(propName: string, districtName: string, environments: seq<Environment>)

  /** One room of the response: its name and its surface. */
  datatype EnvironmentRes = EnvironmentRes(name: string, surface: real)

  /** The assessment returned for a property. */
  datatype EstateAssessment = EstateAssessment(
    propName: string,
    totalSurface: real,
    price: real,
    biggest: Option<EnvironmentRes>,
    environments: seq<EnvironmentRes>)

  /** `getAssessment` either returns an assessment or throws `DistrictNotFoundException`. */
  datatype AssessmentOutcome = Assessed(assessment: EstateAssessment) | DistrictNotFound(districtName: string)

  /** `addDistrict` either returns its message (with the registry it leaves behind) or propagates the repository's refusal. */
  datatype AddOutcome = Added(registry: Registry, message: string) | DistrictAlreadyExists(name: string)

  const SuccessMessage: string := "District was added Successfully"

  // ---------------------------------------------------------------------------
  // Per-room calculations

  /** Surface of one room. */
  function CalculateEnvironmentSurface(e: Environment): real
  {
    e.length * e.width
  }

  /** The response entry for one room keeps its name and carries its surface. */
  function GenerateResponseDto(e: Environment): (r: EnvironmentRes)
    ensures r.name == e.name
    ensures r.surface == e.length * e.width
  {
    EnvironmentRes(e.name, CalculateEnvironmentSurface(e))
  }

  // ---------------------------------------------------------------------------
  // Whole-property calculations

  /** Every room has non-negative dimensions (a physical property; the service does not check it). */
  ghost predicate NonNegativeDimensions(envs: seq<Environment>)
  {
    forall i :: 0 <= i < |envs| ==> envs[i].length >= 0.0 && envs[i].width >= 0.0
  }

  /** Sum of the room surfaces over the whole list. */
  function CalculateEstateSurface(envs: seq<Environment>): (r: real)
    ensures envs == [] ==> r == 0.0
  {
    if envs == [] then 0.0
    else CalculateEnvironmentSurface(envs[0]) + CalculateEstateSurface(envs[1..])
  }

  /** Price of the property for a unit price. */
  function CalculatePrice(estate: Estate, price: real): (r: real)
    ensures estate.environments == [] ==> r == 0.0
  {
    CalculateEstateSurface(estate.environments) * price
  }

  /** The per-room breakdown: one entry per room, in input order. */
  function GenerateEnvironmentsCalculations(envs: seq<Environment>): (r: seq<EnvironmentRes>)
    ensures |r| == |envs|
    ensures forall i :: 0 <= i < |envs| ==> r[i] == GenerateResponseDto(envs[i])
  {
    if envs == [] then []
    else [GenerateResponseDto(envs[0])] + GenerateEnvironmentsCalculations(envs[1..])
  }

  // ---------------------------------------------------------------------------
  // Largest room

  /** The surfaces the comparator of `findBiggerEnvironment` compares, room by room. */
  function Surfaces(envs: seq<Environment>): (s: seq<real>)
    ensures |s| == |envs|
    ensures forall i :: 0 <= i < |envs| ==> s[i] == CalculateEnvironmentSurface(envs[i])
  {
    if envs == [] then [] else [CalculateEnvironmentSurface(envs[0])] + Surfaces(envs[1..])
  }

  /**
   * Index `k` holds the element `Stream.max` picks: it is at least every
   * element, and strictly more than every earlier one.
   */
  ghost predicate IsEarliestMax(s: seq<real>, k: int)
  {
    && 0 <= k < |s|
    && (forall j :: 0 <= j < |s| ==> s[j] <= s[k])
    && (forall j :: 0 <= j < k ==> s[j] < s[k])
  }

  /**
   * The left-to-right reduction of `Stream.max` with `BinaryOperator.maxBy`:
   * the accumulated element `best` is kept unless element `i` is strictly larger.
   */
  function MaxFrom(s: seq<real>, best: nat, i: nat): (k: nat)
    requires best < i <= |s|
    requires forall j :: 0 <= j < i ==> s[j] <= s[best]
    requires forall j :: 0 <= j < best ==> s[j] < s[best]
    ensures IsEarliestMax(s, k)
    decreases |s| - i
  {
    if i == |s| then best
    else if s[best] >= s[i] then MaxFrom(s, best, i + 1)
    else MaxFrom(s, i, i + 1)
  }

  /** Index of the maximum of a non-empty sequence, earliest on ties. */
  function IndexOfMax(s: seq<real>): (k: nat)
    requires |s| > 0
    ensures IsEarliestMax(s, k)
  {
    MaxFrom(s, 0, 1)
  }

  /** At most one index satisfies the tie rule, so the maximum is determined. */
  lemma EarliestMaxUnique(s: seq<real>, k1: int, k2: int)
    requires IsEarliestMax(s, k1) && IsEarliestMax(s, k2)
    ensures k1 == k2
  {
    assert s[k1] <= s[k2] && s[k2] <= s[k1];
  }

  /** The largest room of the list; absent (the source's `null`) when there are no rooms. */
  function FindBiggerEnvironment(envs: seq<Environment>): (r: Option<EnvironmentRes>)
    ensures r.None? <==> envs == []
    ensures forall k :: IsEarliestMax(Surfaces(envs), k) ==> r == Some(GenerateResponseDto(envs[k]))
  {
    if envs == [] then None
    else
      var b := IndexOfMax(Surfaces(envs));
      assert forall k :: IsEarliestMax(Surfaces(envs), k) ==> k == b by {
        forall k | IsEarliestMax(Surfaces(envs), k) ensures k == b {
          EarliestMaxUnique(Surfaces(envs), k, b);
        }
      }
      Some(GenerateResponseDto(envs[b]))
  }

  /**
   * A non-empty list of rooms always has a largest room: one of the rooms,
   * at least as large as every room and larger than every earlier one.
   */
  lemma BiggerEnvironmentIsARoom(envs: seq<Environment>)
    requires envs != []
    ensures exists k :: IsEarliestMax(Surfaces(envs), k) && FindBiggerEnvironment(envs) == Some(GenerateResponseDto(envs[k]))
  {
    var k := IndexOfMax(Surfaces(envs));
    assert IsEarliestMax(Surfaces(envs), k);
  }

  // ---------------------------------------------------------------------------
  // Service operations

  /**
   * The assessment built once the district's unit price is known: the
   * property's name, its total surface, the price at that unit price, the
   * largest room (absent when there are no rooms) and the per-room breakdown.
   */
  function Assess(estate: Estate, unitPrice: real): (a: EstateAssessment)
    ensures a.propName == estate.propName
    ensures a.totalSurface == CalculateEstateSurface(estate.environments)
    ensures a.price == a.totalSurface * unitPrice
    ensures |a.environments| == |estate.environments|
    ensures forall i :: 0 <= i < |estate.environments| ==>
              a.environments[i] == GenerateResponseDto(estate.environments[i])
    ensures a.biggest.None? <==> estate.environments == []
    ensures forall k :: IsEarliestMax(Surfaces(estate.environments), k) ==> a.biggest == Some(a.environments[k])
  {
    var surface := CalculateEstateSurface(estate.environments);
    var total := CalculatePrice(estate, unitPrice);
    assert total == surface * unitPrice;
    EstateAssessment(
      estate.propName,
      surface,
      total,
      FindBiggerEnvironment(estate.environments),
      GenerateEnvironmentsCalculations(estate.environments))
  }

  /**
   * `getAssessment`: fails with the district's name when the registry does
   * not know it, and otherwise assesses the property at the district's unit
   * price.
   */
  function GetAssessment(reg: Registry, estate: Estate): (r: AssessmentOutcome)
    ensures r.DistrictNotFound? <==> estate.districtName !in reg
    ensures r.DistrictNotFound? ==> r.districtName == estate.districtName
    ensures r.Assessed? ==> r.assessment == Assess(estate, reg[estate.districtName])
  {
    match FindDistrictByName(reg, estate.districtName)
    case None => DistrictNotFound(estate.districtName)
    case Some(price) => Assessed(Assess(estate, price))
  }

  /** Hands the district to the repository and reports success, or propagates its refusal. */
  function AddDistrict(reg: Registry, d: District): (r: AddOutcome)
    ensures r.Added? <==> d.name !in reg
    ensures r.DistrictAlreadyExists? ==> r.name == d.name
    ensures r.Added? ==> r.message == SuccessMessage
    ensures r.Added? ==> FindDistrictByName(r.registry, d.name) == Some(d.price)
    ensures r.Added? ==> forall n :: n != d.name ==> FindDistrictByName(r.registry, n) == FindDistrictByName(reg, n)
  {
    match DistrictRepository.AddDistrict(reg, d)
    case Inserted(reg') => Added(reg', SuccessMessage)
    case ExistentDistrictName(name) => DistrictAlreadyExists(name)
  }

  // ---------------------------------------------------------------------------
  // Properties of the total surface

  /** The surface of a concatenation is the sum of the surfaces of its parts. */
  lemma {:induction false} EstateSurfaceAppend(a: seq<Environment>, b: seq<Environment>)
    ensures CalculateEstateSurface(a + b) == CalculateEstateSurface(a) + CalculateEstateSurface(b)
  {
    if a == [] {
      assert a + b == b;
    } else {
      assert (a + b)[1..] == a[1..] + b;
      EstateSurfaceAppend(a[1..], b);
    }
  }

  /** Taking one room out of the list takes its surface out of the total. */
  lemma EstateSurfaceSplit(b: seq<Environment>, j: nat)
    requires j < |b|
    ensures CalculateEstateSurface(b)
            == CalculateEstateSurface(b[..j]) + CalculateEnvironmentSurface(b[j]) + CalculateEstateSurface(b[j + 1..])
  {
    assert b == b[..j] + ([b[j]] + b[j + 1..]);
    EstateSurfaceAppend(b[..j], [b[j]] + b[j + 1..]);
    assert ([b[j]] + b[j + 1..])[1..] == b[j + 1..];
  }

  /** Removing the first room of `a` and a matching room `b[j]` of `b` keeps the multisets equal. */
  lemma RemoveMatchingRoom(a: seq<Environment>, b: seq<Environment>, j: nat)
    requires multiset(a) == multiset(b)
    requires a != [] && j < |b| && b[j] == a[0]
    ensures multiset(a[1..]) == multiset(b[..j] + b[j + 1..])
  {
    assert b == b[..j] + [b[j]] + b[j + 1..];
    assert a == [a[0]] + a[1..];
    calc {
      multiset(a[1..]);
      multiset(a) - multiset{a[0]};
      multiset(b) - multiset{a[0]};
      multiset(b[..j]) + multiset(b[j + 1..]);
      multiset(b[..j] + b[j + 1..]);
    }
  }

  /** The total surface does not depend on the order of the rooms. */
  lemma {:induction false} EstateSurfacePermutation(a: seq<Environment>, b: seq<Environment>)
    requires multiset(a) == multiset(b)
    ensures CalculateEstateSurface(a) == CalculateEstateSurface(b)
    decreases |a|
  {
    if a == [] {
      assert |b| == |multiset(b)| == 0;
    } else {
      assert a[0] in multiset(b);
      var j :| 0 <= j < |b| && b[j] == a[0];
      var rest := b[..j] + b[j + 1..];
      RemoveMatchingRoom(a, b, j);
      EstateSurfacePermutation(a[1..], rest);
      EstateSurfaceAppend(b[..j], b[j + 1..]);
      EstateSurfaceSplit(b, j);
    }
  }

  /** The total surface is the sum of the surfaces listed in the breakdown. */
  function SumOfBreakdown(rs: seq<EnvironmentRes>): real
  {
    if rs == [] then 0.0 else rs[0].surface + SumOfBreakdown(rs[1..])
  }

  lemma {:induction false} EstateSurfaceIsSumOfBreakdown(envs: seq<Environment>)
    ensures CalculateEstateSurface(envs) == SumOfBreakdown(GenerateEnvironmentsCalculations(envs))
  {
    if envs != [] {
      var rs := GenerateEnvironmentsCalculations(envs);
      assert rs[1..] == GenerateEnvironmentsCalculations(envs[1..]);
      EstateSurfaceIsSumOfBreakdown(envs[1..]);
    }
  }

  /** A room with non-negative dimensions has a non-negative surface. */
  lemma EnvironmentSurfaceNonNegative(e: Environment)
    requires e.length >= 0.0 && e.width >= 0.0
    ensures CalculateEnvironmentSurface(e) >= 0.0
  {
  }

  /** With non-negative dimensions the total surface is non-negative. */
  lemma {:induction false} EstateSurfaceNonNegative(envs: seq<Environment>)
    requires NonNegativeDimensions(envs)
    ensures CalculateEstateSurface(envs) >= 0.0
  {
    if envs != [] {
      EnvironmentSurfaceNonNegative(envs[0]);
      assert NonNegativeDimensions(envs[1..]) by {
        forall j | 0 <= j < |envs[1..]| ensures envs[1..][j].length >= 0.0 && envs[1..][j].width >= 0.0 {
          assert envs[1..][j] == envs[j + 1];
        }
      }
      EstateSurfaceNonNegative(envs[1..]);
    }
  }

  /** With non-negative dimensions and a non-negative unit price, the price is non-negative. */
  lemma PriceNonNegative(estate: Estate, price: real)
    requires NonNegativeDimensions(estate.environments) && price >= 0.0
    ensures CalculatePrice(estate, price) >= 0.0
  {
    EstateSurfaceNonNegative(estate.environments);
  }

  /** With non-negative dimensions, every room's surface is at most the total surface. */
  lemma {:induction false} RoomBelowEstateSurface(envs: seq<Environment>, i: nat)
    requires i < |envs|
    requires NonNegativeDimensions(envs)
    ensures CalculateEnvironmentSurface(envs[i]) <= CalculateEstateSurface(envs)
  {
    assert NonNegativeDimensions(envs[1..]) by {
      forall j | 0 <= j < |envs[1..]| ensures envs[1..][j].length >= 0.0 && envs[1..][j].width >= 0.0 {
        assert envs[1..][j] == envs[j + 1];
      }
    }
    if i > 0 {
      EnvironmentSurfaceNonNegative(envs[0]);
      RoomBelowEstateSurface(envs[1..], i - 1);
    } else {
      EstateSurfaceNonNegative(envs[1..]);
    }
  }

  /** With non-negative dimensions the largest room is no larger than the whole property. */
  lemma BiggestBelowEstateSurface(envs: seq<Environment>, k: int)
    requires IsEarliestMax(Surfaces(envs), k)
    requires NonNegativeDimensions(envs)
    ensures Surfaces(envs)[k] <= CalculateEstateSurface(envs)
  {
    RoomBelowEstateSurface(envs, k);
  }

  // ---------------------------------------------------------------------------
  // Properties linking the two operations

  /**
   * After a district is added, a property in it is assessed at the district's
   * unit price: the outcome is `Assess` at `d.price`, so its price is the total
   * surface times `d.price`.
   */
  lemma AssessmentAfterAddDistrict(reg: Registry, d: District, estate: Estate)
    requires d.name !in reg
    requires estate.districtName == d.name
    ensures AddDistrict(reg, d).Added?
    ensures GetAssessment(AddDistrict(reg, d).registry, estate) == Assessed(Assess(estate, d.price))
  {
    assert FindDistrictByName(AddDistrict(reg, d).registry, d.name) == Some(d.price);
  }

  /** Adding a district never changes the assessment of a property in another district. */
  lemma AddDistrictKeepsOtherAssessments(reg: Registry, d: District, estate: Estate)
    requires d.name !in reg
    requires estate.districtName != d.name
    ensures AddDistrict(reg, d).Added?
    ensures GetAssessment(AddDistrict(reg, d).registry, estate) == GetAssessment(reg, estate)
  {
  }
}
