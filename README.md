# Estate assessment service, modelled in Dafny

This project models `EstateService` of a Spring real-estate assessment
service. Given a property ("estate") with a name, a district name and an
ordered list of rooms ("environments", each with a name, a length and a
width), the service looks up the district's price per unit of surface and
returns an assessment:

- the total surface, which is the sum of length × width over the rooms;
- the price, which is that surface times the district's unit price;
- the largest room with its surface (absent when there are no rooms; earliest
  room on ties);
- the per-room breakdown of (name, surface), in input order.

When the district is not registered, the service fails with
`DistrictNotFound` carrying the district name. `addDistrict` hands a district
to the repository and returns the message "District was added Successfully".

Files:

- `wrappers.dfy`: module `Wrappers`, the `Option` type standing for the
  source's nullable references.
- `district_repository.dfy`: module `DistrictRepository`. It is the abstract
  district registry, a map from district name to unit price, with lookup and
  insertion. The repository implementation is not part of this model. Its
  insertion is given an insert-or-fail contract. That contract is an
  assumption, based on the `ExistentDistrictNameException` declared on
  `addDistrict`; it is not derived from the repository's code.
- `estate_service.dfy`: module `EstateService`, the calculations, the two
  service operations and the lemmas about them.
- `estate_service_scenarios.dfy`: module `EstateServiceScenarios`, the unit
  test's concrete scenario and a few others, as lemmas.

Modelling decisions:

- All numbers are exact `real`s. There is no IEEE-754 rounding.
- The source code is pure stream pipelines. The model is therefore recursive
  functions over `seq`, with lemmas.
- `Stream.max(Comparator.comparing(surface))` reduces left to right with
  `BinaryOperator.maxBy`. That operator keeps the accumulated element unless
  the next one compares strictly greater. `MaxFrom` is that reduction over the
  room surfaces. `IsEarliestMax` is its independent characterisation: the
  chosen room is at least as large as every room and strictly larger than
  every earlier one.
- The registry is a parameter (`Registry = map<string, real>`), not injected
  state. `addDistrict` returns the registry it leaves behind.
- `getAssessment` takes the property name from the request DTO and the rooms
  from the mapped model. The mapping is a field copy, so the model uses one
  `Estate` value for both.
- The largest-room proof compares the sequence of room surfaces (`Surfaces`),
  not the rooms directly. This matches the source's comparator, which compares
  `calculateEnvironmentSurface` values. It also keeps real products out of the
  comparisons.
- `addDistrict` only forwards to the repository and declares
  `ExistentDistrictNameException`, so the model puts duplicate-name rejection
  in the assumed repository contract.

## Model

| member | source | states |
|---|---|---|
| `DistrictRepository.FindDistrictByName` | src/main/java/com/meli/testingchallenge/services/EstateService.java:48-50 | the lookup is present exactly when the name is registered, and then it gives that name's unit price (absent stands for `null`) |
| `DistrictRepository.AddDistrict` | src/main/java/com/meli/testingchallenge/services/EstateService.java:67-72 | assumed repository insertion: it succeeds exactly when the name is new, the new name then maps to its price, and every other lookup is unchanged; a known name is refused with that name |
| `EstateService.CalculateEnvironmentSurface` | src/main/java/com/meli/testingchallenge/services/EstateService.java:77-79 | no contract of its own: its meaning, surface = length × width, is stated by the ensures of `GenerateResponseDto` and `Surfaces`, and its non-negativity by `EnvironmentSurfaceNonNegative` |
| `EstateService.GenerateResponseDto` | src/main/java/com/meli/testingchallenge/services/EstateService.java:77-83 | a room's response entry has the room's name, and its surface is exactly length × width |
| `EstateService.CalculateEstateSurface` | src/main/java/com/meli/testingchallenge/services/EstateService.java:85-90 | an empty room list has total surface 0 |
| `EstateService.CalculatePrice` | src/main/java/com/meli/testingchallenge/services/EstateService.java:92-95 | a property without rooms has price 0 |
| `EstateService.GenerateEnvironmentsCalculations` | src/main/java/com/meli/testingchallenge/services/EstateService.java:98-103 | the breakdown has one entry per room, and entry i is room i's name and length × width (same length, same order) |
| `EstateService.Surfaces` | src/main/java/com/meli/testingchallenge/services/EstateService.java:108-110 | the values the comparator compares: one per room, element i being room i's surface |
| `EstateService.MaxFrom` | src/main/java/com/meli/testingchallenge/services/EstateService.java:108-111 | the `maxBy` reduction, resumed from any prefix whose accumulated index is that prefix's earliest maximum, ends at the earliest maximum of the whole sequence |
| `EstateService.IndexOfMax` | src/main/java/com/meli/testingchallenge/services/EstateService.java:108-111 | for a non-empty sequence, the reduction's result is at least every element and strictly more than every earlier one |
| `EstateService.EarliestMaxUnique` | src/main/java/com/meli/testingchallenge/services/EstateService.java:108-111 | at most one index satisfies the earliest-maximum rule, so the tie rule determines the largest room |
| `EstateService.FindBiggerEnvironment` | src/main/java/com/meli/testingchallenge/services/EstateService.java:105-116 | the result is absent exactly when there are no rooms; otherwise it is the response entry of the room at the earliest index of maximum surface |
| `EstateService.BiggerEnvironmentIsARoom` | src/main/java/com/meli/testingchallenge/services/EstateService.java:105-116 | for a non-empty list, the largest room reported is one of the rooms, no room is larger, and every earlier room is strictly smaller |
| `EstateService.Assess` | src/main/java/com/meli/testingchallenge/services/EstateService.java:54-58 | the assessment carries the property name, the sum of the room surfaces, price = total surface × unit price, the per-room breakdown in order, and the earliest largest room (absent iff no rooms) |
| `EstateService.GetAssessment` | src/main/java/com/meli/testingchallenge/services/EstateService.java:44-59 | it fails with `DistrictNotFound(name)` exactly when the district is not registered; otherwise it is the assessment at that district's unit price |
| `EstateService.AddDistrict` | src/main/java/com/meli/testingchallenge/services/EstateService.java:70-74 | on success the message is "District was added Successfully", the district can be looked up with its price, and nothing else changes; the repository's refusal of a known name is propagated with that name |
| `EstateService.EstateSurfaceAppend` | src/main/java/com/meli/testingchallenge/services/EstateService.java:85-90 | the total surface of two room lists concatenated is the sum of their totals |
| `EstateService.EstateSurfaceSplit` | src/main/java/com/meli/testingchallenge/services/EstateService.java:85-90 | the total surface is the surface of rooms before j, plus room j's, plus the rooms after j |
| `EstateService.EstateSurfacePermutation` | src/main/java/com/meli/testingchallenge/services/EstateService.java:85-90 | the total surface is the same for any reordering of the rooms |
| `EstateService.EstateSurfaceIsSumOfBreakdown` | src/main/java/com/meli/testingchallenge/services/EstateService.java:85-103 | the reported total surface equals the sum of the surfaces listed in the per-room breakdown |
| `EstateService.EnvironmentSurfaceNonNegative` | src/main/java/com/meli/testingchallenge/services/EstateService.java:77-79 | a room with non-negative length and width has a non-negative surface |
| `EstateService.EstateSurfaceNonNegative` | src/main/java/com/meli/testingchallenge/services/EstateService.java:85-90 | rooms with non-negative dimensions have a non-negative total surface |
| `EstateService.PriceNonNegative` | src/main/java/com/meli/testingchallenge/services/EstateService.java:92-95 | non-negative dimensions and a non-negative unit price give a non-negative price |
| `EstateService.RoomBelowEstateSurface` | src/main/java/com/meli/testingchallenge/services/EstateService.java:85-90 | with non-negative dimensions, no room's surface exceeds the total surface |
| `EstateService.BiggestBelowEstateSurface` | src/main/java/com/meli/testingchallenge/services/EstateService.java:105-116 | with non-negative dimensions, the largest room's surface is at most the total surface |
| `EstateService.AssessmentAfterAddDistrict` | src/main/java/com/meli/testingchallenge/services/EstateService.java:44-74 | after a new district is added, a property in it is assessed, and the assessment is exactly `Assess` at the district's unit price, so (by `Assess`'s contract) its price is the total surface × that price |
| `EstateService.AddDistrictKeepsOtherAssessments` | src/main/java/com/meli/testingchallenge/services/EstateService.java:44-74 | adding a district leaves the outcome for a property in any other district unchanged |
| `EstateServiceScenarios.HouseAssessment` | src/test/java/com/meli/testingchallenge/unit/EstateServiceTests.java:44-85 | rooms bigger 2×2, medium 2×1 and smaller 1×1 at unit price 2.0 give surface 7.0, price 14.0, largest (bigger, 4.0), breakdown [(bigger, 4.0), (medium, 2.0), (smaller, 1.0)] |
| `EstateServiceScenarios.UnknownDistrict` | src/main/java/com/meli/testingchallenge/services/EstateService.java:48-52 | the unit test's house in "District1", with "District1" not registered, fails with `DistrictNotFound`; the test (EstateServiceTests.java lines 87-96) checks only that this failure occurs, and the model also states that it carries the name "District1", as line 51 constructs it |
| `EstateServiceScenarios.EmptyEstate` | src/main/java/com/meli/testingchallenge/services/EstateService.java:85-116 | a property with no rooms gets surface 0, price 0, no largest room and an empty breakdown, not an error |
| `EstateServiceScenarios.DistrictAddedTwice` | src/main/java/com/meli/testingchallenge/services/EstateService.java:67-74 | adding "District1" at 2.0 to an empty registry returns the success message and registers it, which is the half the unit test (EstateServiceTests.java lines 98-113) covers with a mocked repository; adding it a second time is refused with "District1", an extra scenario that rests on the assumed repository contract |

## Left out

- ModelMapper's DTO-to-model conversion (lines 46 and 71). It is a field copy done by a foreign library; the model takes the property and the district as Dafny values.
- Spring dependency injection and the `IDistrictRepository` implementation. The repository's storage and its duplicate check are not part of this model. `DistrictRepository.AddDistrict` states the duplicate check as an assumption.
- IEEE-754 double rounding, `NaN`, `-0.0` and the accumulation-order effects of `DoubleStream.sum`. Numbers are exact reals, so the sum does not depend on order.
- The catch-all `catch (Exception e)` around the maximum (line 112). Only the empty list, which makes `orElseThrow` throw, yields the absent largest room. Other exceptions cannot arise over exact values.
- A `null` unit price on a registered district. Line 56 passes the boxed `Double` on unchanged; the multiplication at line 94 would unbox it and throw a `NullPointerException`. The model's prices are always present.
- EstateService.CalculateEnvironmentSurface: no contract of its own. Its meaning, surface = length × width, is stated by `GenerateResponseDto`, `GenerateEnvironmentsCalculations` and `Surfaces`.
- EstateService.CalculateEstateSurface: the contract states only the empty case. The total's value is given by its definition, and its properties are the lemmas `EstateSurfaceAppend`, `EstateSurfacePermutation`, `EstateSurfaceIsSumOfBreakdown` and the non-negativity lemmas.
- EstateService.CalculatePrice: the contract states only the empty case. Price = total surface × unit price is stated where the assessment is built, by `Assess`.
- Validation of non-positive room dimensions. The source performs none, and neither does the model. Non-negativity appears only as a hypothesis of the lemmas that need it.
- HTTP controllers, request and response serialisation, and the Mockito/JUnit harness.
