# FriendlyLink core in Dafny

FriendlyLink is a record manager that pairs volunteers with elderly people.
This project models three small decision procedures of it and proves what they promise:

- **Loading an elderly record** (`JsonAdaptedElderly.toModelType`). The fields every person has are converted first. Then six checks run in a fixed order on the raw `nric`, `age` and `riskLevel` strings: present, then valid, for each field. The first failing check decides the error. Otherwise an `Elderly` is built from exactly those strings. The source has one quirk, kept here as written: an invalid risk level is reported with the constraint message of `Age`.
- **The `add_volunteer` command** (`AddVolunteerCommand`). A volunteer already in the address book is rejected with the duplicate message, and nothing changes. Otherwise the volunteer is appended and the success message names it.
- **The medical-qualification filter** (`MedicalQualificationContainsKeywordPredicate`). It stores its keyword lower-cased. A volunteer matches when some medical tag name, lower-cased, contains the keyword as a contiguous substring. Predicates are equal, and hash alike, when their stored keywords are equal.

Files:
- `common.dfy` holds `Option` for Java's `null`, and `Result` with an `Exception` for thrown exceptions. It also holds `Object`, the argument of `equals(Object)`.
- `persons.dfy` holds the person records.
- `text.dfy` models `String.toLowerCase`, `contains` and `hashCode`.
- `elderly_storage.dfy`, `add_volunteer.dfy` and `medical_qualification.dfy` hold one source class each.

Code the core calls but does not contain becomes a parameter:
- `FieldRules` bundles the base-person adapter in both directions, the validators `Nric.isValidNric`, `Age.isValidAge` and `RiskLevel.isValidRisk`, and the constraint messages of `Nric` and `Age`.
- `render` stands for `Volunteer.toString`.

## Model

| member | source | states |
|---|---|---|
| ElderlyStorage.MissingFieldMessage | src/main/java/seedu/address/storage/elderly/JsonAdaptedElderly.java:28 | the missing-field message is "Elderly's ", then the field name, then " field is missing!" |
| ElderlyStorage.MissingFieldMessageInjective | src/main/java/seedu/address/storage/elderly/JsonAdaptedElderly.java:28 | different field names give different missing-field messages, so the message names the missing field |
| ElderlyStorage.ToModelType | src/main/java/seedu/address/storage/elderly/JsonAdaptedElderly.java:63-91 | a base-conversion failure is rethrown unchanged; the load succeeds iff the base converts and no field check fails; on success the record carries the converted base fields and exactly the three input strings |
| ElderlyStorage.FirstFailingCheckDecides | src/main/java/seedu/address/storage/elderly/JsonAdaptedElderly.java:70-88 | after a successful base conversion, loading fails iff some check in the order nric-missing, nric-invalid, age-missing, age-invalid, risk-missing, risk-invalid fails, and the error is the message of the first failing one |
| ElderlyStorage.MissingNricReported | src/main/java/seedu/address/storage/elderly/JsonAdaptedElderly.java:70-72 | a missing nric yields "Elderly's Nric field is missing!" whatever the other fields hold |
| ElderlyStorage.MissingAgeReported | src/main/java/seedu/address/storage/elderly/JsonAdaptedElderly.java:76-78 | a missing age behind a valid nric yields "Elderly's Age field is missing!" |
| ElderlyStorage.MissingRiskLevelReported | src/main/java/seedu/address/storage/elderly/JsonAdaptedElderly.java:82-85 | a missing risk level behind a valid nric and age yields "Elderly's RiskLevel field is missing!" |
| ElderlyStorage.InvalidRiskReportsAgeConstraints | src/main/java/seedu/address/storage/elderly/JsonAdaptedElderly.java:86-87 | an invalid risk level behind a valid nric and age is reported with the Age constraint message |
| ElderlyStorage.FromElderly | src/main/java/seedu/address/storage/elderly/JsonAdaptedElderly.java:51-56 | adapting an elderly record stores its nric, age and risk level text verbatim as present fields |
| ElderlyStorage.RoundTrip | src/main/java/seedu/address/storage/elderly/JsonAdaptedElderly.java:51-91 | adapting a record with valid fields and loading it back returns the same record, given that the base adapter round-trips |
| AddVolunteer.NewAddVolunteerCommand | src/main/java/seedu/address/logic/commands/AddVolunteerCommand.java:50-53 | a null volunteer throws a null-pointer exception; any other is held by the command |
| AddVolunteer.Execute | src/main/java/seedu/address/logic/commands/AddVolunteerCommand.java:56-65 | fails iff the volunteer is already present, and then with the duplicate message and the model unchanged; otherwise the old persons keep their places, exactly the volunteer is added, and the message is "New volunteer added: " followed by its rendering |
| AddVolunteer.ExecutePreservesNoDuplicates | src/main/java/seedu/address/logic/commands/AddVolunteerCommand.java:59-63 | an address book without repeated persons stays so after the command |
| AddVolunteer.ExecuteTwice | src/main/java/seedu/address/logic/commands/AddVolunteerCommand.java:59-64 | on a model without the volunteer, the first run succeeds and the second reports the duplicate and leaves the first run's model as it is |
| AddVolunteer.Equals | src/main/java/seedu/address/logic/commands/AddVolunteerCommand.java:67-72 | a command equals exactly an instance of the command class holding an equal volunteer, and never null or an object of another class |
| AddVolunteer.EqualsIsEquivalence | src/main/java/seedu/address/logic/commands/AddVolunteerCommand.java:67-72 | command equality is reflexive, symmetric and transitive |
| MedicalQualification.NewKeywordPredicate | src/main/java/seedu/address/model/person/predicates/MedicalQualificationContainsKeywordPredicate.java:21-24 | a null keyword throws; otherwise the stored keyword has no upper-case letter and equals the input up to letter case |
| MedicalQualification.Test | src/main/java/seedu/address/model/person/predicates/MedicalQualificationContainsKeywordPredicate.java:27-30 | a volunteer matches iff some medical tag name, lower-cased, has the stored keyword as a contiguous substring |
| MedicalQualification.NoMedicalTagsNeverMatch | src/main/java/seedu/address/model/person/predicates/MedicalQualificationContainsKeywordPredicate.java:28-29 | a volunteer without medical tags never matches |
| MedicalQualification.EmptyKeywordMatchesTagged | src/main/java/seedu/address/model/person/predicates/MedicalQualificationContainsKeywordPredicate.java:28-29 | the empty keyword matches exactly the volunteers with at least one medical tag |
| MedicalQualification.TestMonotone | src/main/java/seedu/address/model/person/predicates/MedicalQualificationContainsKeywordPredicate.java:28-29 | a volunteer whose medical tags include another's matches whenever the other does |
| MedicalQualification.AddingTagKeepsMatch | src/main/java/seedu/address/model/person/predicates/MedicalQualificationContainsKeywordPredicate.java:28-29 | adding a medical tag never turns a match into a non-match |
| MedicalQualification.HashCode | src/main/java/seedu/address/model/person/predicates/MedicalQualificationContainsKeywordPredicate.java:39-42 | the hash code is a 32-bit int congruent to 31 plus the keyword's string hash |
| MedicalQualification.Equals | src/main/java/seedu/address/model/person/predicates/MedicalQualificationContainsKeywordPredicate.java:33-37 | a predicate equals exactly an instance of the predicate class with the same stored keyword, and never null or an object of another class |
| MedicalQualification.EqualsImpliesEqualHashCode | src/main/java/seedu/address/model/person/predicates/MedicalQualificationContainsKeywordPredicate.java:33-42 | equal predicates have equal hash codes |
| MedicalQualification.CaseVariantKeywordsAgree | src/main/java/seedu/address/model/person/predicates/MedicalQualificationContainsKeywordPredicate.java:21-42 | predicates built from two keywords are equal iff the keywords differ only in letter case, and then they hash alike and accept the same volunteers |
| Text.Lower | src/main/java/seedu/address/model/person/predicates/MedicalQualificationContainsKeywordPredicate.java:23 | lower-casing keeps the length, lowers each character and leaves no upper-case letter |
| Text.LowerIdempotent | src/main/java/seedu/address/model/person/predicates/MedicalQualificationContainsKeywordPredicate.java:23 | lower-casing a lower-cased string changes nothing |
| Text.LowerEqualIffEqualIgnoringCase | src/main/java/seedu/address/model/person/predicates/MedicalQualificationContainsKeywordPredicate.java:23 | two strings lower-case to the same string iff they differ only in letter case |
| Text.Contains | src/main/java/seedu/address/model/person/predicates/MedicalQualificationContainsKeywordPredicate.java:29 | the search answers true iff the needle occurs at some index of the haystack as a contiguous substring |
| Text.StringHashCode | src/main/java/seedu/address/model/person/predicates/MedicalQualificationContainsKeywordPredicate.java:41 | the string hash is a 32-bit int congruent to the left-to-right polynomial hash with multiplier 31 |

## Left out

- The JSON reading and writing and its annotations are left out: they are I/O and library plumbing.
- The concrete rules of the validators are defined in `Nric`, `Age`, `RiskLevel`, `Name`, `Phone`, `Email` and `Address`, outside the modelled classes. They are parameters of `FieldRules`.
- The conversion of the base fields is defined in `JsonAdaptedPerson`, outside the modelled classes. This includes the tag lookup `getTagSet` in the address book. It is the parameter `FieldRules.convertBase`, which may fail. Its inverse, the constructor `JsonAdaptedPerson(Person)`, is the parameter `FieldRules.adaptBase`.
- ElderlyStorage.RoundTrip: the conversion between a risk level's text and its `riskStatus` value is defined in `RiskLevel`, outside the modelled classes. A risk level is modelled as its text, so the round trip of the risk level assumes that `String.valueOf(riskStatus)` gives back the text it was built from.
- The address book is defined in `Model` and its unique-person list, outside the modelled classes. `hasPerson` is sequence membership under full field equality, and `addPerson` appends.
- `execute`'s null check on the model is left out, because a model value cannot be null.
- The usage text `MESSAGE_USAGE` is left out as cosmetic. `Volunteer.toString` is the parameter `render`.
- Text.Lower: only the ASCII letters A-Z are lower-cased. Java's locale-dependent Unicode lower-casing, including case mappings that change a string's length, is not modelled.
- Text.StringHashCode: each Dafny character counts as one UTF-16 unit. Characters outside the Basic Multilingual Plane, which Java hashes as two surrogate units, are not modelled.
- The `other == this` short cut of both `equals` methods has no separate case, because values have no identity apart from their fields.
