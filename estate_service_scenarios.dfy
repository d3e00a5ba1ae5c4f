/**
 * Concrete scenarios for the assessment service: the three-room house of the
 * unit tests, that house in an unregistered district, an empty property, and a
 * district registered twice.
 */
module EstateServiceScenarios {
  import opened Wrappers
  import opened DistrictRepository
  import opened EstateService

  const Bigger := Environment("bigger", 2.0, 2.0)
  const Medium := Environment("medium", 2.0, 1.0)
  const Smaller := Environment("smaller", 1.0, 1.0)
  const House1 := Estate("House1", "District1", [Bigger, Medium, Smaller])
  const District1 := District("District1", 2.0)

  /** The three-room house in a district priced 2.0 per unit of surface. */
  lemma HouseAssessment()
    ensures GetAssessment(map["District1" := 2.0], House1)
            == Assessed(EstateAssessment(
                 "House1", 7.0, 14.0,
                 Some(EnvironmentRes("bigger", 4.0)),
                 [EnvironmentRes("bigger", 4.0), EnvironmentRes("medium", 2.0), EnvironmentRes("smaller", 1.0)]))
  {
    var envs := House1.environments;
    assert envs[1..] == [Medium, Smaller];
    assert envs[1..][1..] == [Smaller];
    assert [Smaller][1..] == [];
    assert CalculateEstateSurface([Smaller]) == 1.0;
    assert CalculateEstateSurface([Medium, Smaller]) == 3.0;
    assert CalculateEstateSurface(envs) == 7.0;
    var s := Surfaces(envs);
    assert IsEarliestMax(s, 0);
    var b := GenerateEnvironmentsCalculations(envs);
    assert b == [EnvironmentRes("bigger", 4.0), EnvironmentRes("medium", 2.0), EnvironmentRes("smaller", 1.0)];
  }

  /** The house of the unit tests, in a district that is not registered, is refused with that name. */
  lemma UnknownDistrict(reg: Registry)
    requires "District1" !in reg
    ensures GetAssessment(reg, House1) == DistrictNotFound("District1")
  {
  }

  /** A property with no rooms has no surface, no price and no largest room. */
  lemma EmptyEstate(reg: Registry, name: string, district: string)
    requires district in reg
    ensures GetAssessment(reg, Estate(name, district, [])).Assessed?
    ensures GetAssessment(reg, Estate(name, district, [])).assessment
            == EstateAssessment(name, 0.0, 0.0, None, [])
  {
  }

  /** Registering the same district twice: the first call succeeds, the second is refused. */
  lemma DistrictAddedTwice()
    ensures EstateService.AddDistrict(map[], District1) == Added(map["District1" := 2.0], SuccessMessage)
    ensures EstateService.AddDistrict(EstateService.AddDistrict(map[], District1).registry, District1) == DistrictAlreadyExists("District1")
  {
  }
}
