# Repository-pair rules of the session resource

A session resource lists the git repositories an agent works on. Each entry
(`SimpleRepo`) has a required input location, an optional output location
and an optional auto-push flag. A location (`RepoLocation`) is a URL and an
optional branch. This project models three parts of that entry and proves
properties about them:

- **Validation.** `ValidateRepo` checks three rules in a fixed order. The
  input must be present. The trimmed input URL must not be blank. If there
  is an output, its (trimmed URL, trimmed branch) pair must differ from the
  input's, with a missing branch read as `""`.
- **Encoding.** `ToMapForCR` turns the entry into the untyped, nested map
  that is stored in the resource specification.
- **Decoding and comparison.** The round-trip test decodes that map back
  into an entry with an inline decoder. It then compares the result with
  the strict, nil-aware helpers `reposEqual` and `repoLocationsEqual`.

How the Go constructs are modelled:

- Go pointers (`*string`, `*bool`, `*RepoLocation`) become `Option` values.
- A returned `error` becomes an `Outcome` with one `RepoError` per message.
- The stored `map[string]interface{}` becomes `map<string, Value>`, where
  `Value` holds a string, a boolean or a nested map.
- `strings.TrimSpace` is modelled in module `Strings`, with its white-space
  set written out in `IsSpace`.

Modules follow the two source files:

- `Session` models components/backend/types/session.go: the types, the
  validator, the encoder as a function (`EncodeRepo`) and the encoder as
  the key-by-key method of the source (`ToMapForCR`).
- `SessionTest` models components/backend/types/session_test.go: the
  decoder as a function (`Decode`) and as the field-by-field method of the
  test (`DecodeRepo`), the equality helpers, the round-trip laws in both
  directions, and the test tables as lemmas.
- `Wrappers` holds `Option` and `Outcome`.

Three behaviours of the code worth knowing:

- The decoder does not fail when `"input"` or its `"url"` is missing. A
  missing input stays nil, and a missing or non-string URL reads as `""`
  (`DecodeLenient`).
- Validation requires a non-blank URL only for the input. An output with a
  blank URL is admitted (`BlankOutputURLAdmitted`).
- The encoder does not always emit `"input"`. A repository without an input
  encodes to the empty map, dropping any output and auto-push flag. The
  round trip therefore holds exactly for repositories that have an input,
  or that have nothing set at all (`RoundTrip`).

## Model

| member | source | states |
|---|---|---|
| `Strings.TrimSpace` | components/backend/types/session.go:136-151 | The result is the slice of the input that starts after its leading white space and is followed only by white space, and it neither begins nor ends with white space |
| `Strings.TrimSpaceEmptyIff` | components/backend/types/session.go:136 | A string trims to `""` exactly when it is empty or made only of white space |
| `Strings.TrimSpaceIdempotent` | components/backend/types/session.go:142-151 | Trimming a trimmed string changes nothing |
| `Strings.TrimSpaceOfTrimmed` | components/backend/types/session.go:142-151 | A string that neither begins nor ends with white space is its own trim |
| `Strings.TrimSpaceUnpads` | components/backend/types/session.go:142-151 | Padding a string with white space on either side never changes its trim |
| `Session.Message` | components/backend/types/session.go:132-156 | Each validation error has a non-empty message text |
| `Session.MessagesDistinct` | components/backend/types/session.go:132-156 | No two validation errors share a message, so the message identifies the rule that failed |
| `Session.ValidateRepo` | components/backend/types/session.go:131-160 | Fails with MissingInput exactly when the input is nil, whatever the output and flag hold. Fails with MissingInputURL exactly when the input is present and its URL is empty or white space only, before any output check. Fails with IdenticalInputOutput exactly when the URL is not blank, an output is present, and the trimmed URLs and normalised branches are both equal. Passes in every other case: no output, or a difference in URL alone or in branch alone. The auto-push flag never matters |
| `Session.BranchNormalization` | components/backend/types/session.go:144-151 | A present branch is equivalent to a missing one in validation exactly when it is empty or white space only |
| `Session.ValidatePaddingInvariant` | components/backend/types/session.go:136-154 | Padding the input URL or the input branch with white space never changes the validation outcome |
| `Session.ValidateOutputPaddingInvariant` | components/backend/types/session.go:141-154 | Padding the output URL or the output branch with white space never changes the validation outcome |
| `Session.ValidateTrimmedInvariant` | components/backend/types/session.go:141-154 | Replacing both URLs by their trimmed form never changes the validation outcome, so trimming matters only inside the comparison |
| `Session.LocationMap` | components/backend/types/session.go:167-172 | A location's map always has `"url"` with the literal, untrimmed URL. It has `"branch"` exactly when the branch is set, holding the literal string, `""` included. It has no other key |
| `Session.EncodeRepo` | components/backend/types/session.go:163-193 | Without an input the map is empty. With one, `"input"` is present, `"output"` is present exactly when the output is set, and `"autoPush"` is present exactly when the flag is set, holding `true` or `false`. There are no other keys, and every result is a well-formed stored entry |
| `Session.ToMapForCR` | components/backend/types/session.go:163-193 | Building the map key by key, as the source does, yields exactly `EncodeRepo` of the repository |
| `SessionTest.DecodeLocation` | components/backend/types/session_test.go:458-479 | Only a map value yields a location. Its branch is set exactly when a string `"branch"` is present. Its URL is the string `"url"` if there is one, and `""` otherwise |
| `SessionTest.Decode` | components/backend/types/session_test.go:455-484 | Input and output are set exactly when their keys hold maps. The flag is set exactly when `"autoPush"` holds a boolean, and it takes that boolean. Everything else stays nil |
| `SessionTest.DecodeRepo` | components/backend/types/session_test.go:455-484 | Filling a zero repository field by field behind the type checks, as the test does, yields exactly `Decode` of the map |
| `SessionTest.RepoLocationsEqual` | components/backend/types/session_test.go:517-538 | True exactly when the two optional locations are identical: two nils are equal, one nil is not, and a nil branch differs from `""` |
| `SessionTest.ReposEqual` | components/backend/types/session_test.go:495-515 | True exactly when input, output and flag are pairwise identical under the nil-aware comparison, which makes it reflexive and symmetric |
| `SessionTest.StringAt` | components/backend/types/session_test.go:460-464 | A string is read from a key exactly when the key holds a string value |
| `SessionTest.LocationRoundTrip` | components/backend/types/session_test.go:458-479 | Decoding the encoding of any location gives back that location |
| `SessionTest.RoundTrip` | components/backend/types/session_test.go:449-491 | Decoding the encoding of a repository gives it back exactly when it has an input, or has no output and no flag |
| `SessionTest.ValidRoundTrip` | components/backend/types/session_test.go:391-492 | Every repository that validation admits is accepted by `reposEqual` after encoding and decoding, with or without an output and with either flag value |
| `SessionTest.EncodeDecode` | components/backend/types/session_test.go:456-484 | Every well-formed stored entry is the encoding of what it decodes to, so encoder and decoder are mutual inverses on well-formed maps |
| `SessionTest.LocationInverse` | components/backend/types/session_test.go:458-467 | A well-formed stored location decodes to a location whose encoding is that same value |
| `SessionTest.CheckRoundTrip` | components/backend/types/session_test.go:449-491 | The test's encode, decode and compare step reports success exactly for the repositories the round-trip law covers |
| `SessionTest.DecodeLenient` | components/backend/types/session_test.go:459-462 | A location map without a string `"url"` decodes to the empty URL with no error, and a non-boolean `"autoPush"` is ignored |
| `SessionTest.BranchNilVersusEmpty` | components/backend/types/session_test.go:529-535 | Validation treats a nil branch and `""` as the same target. The strict comparison and the stored form both keep them apart |
| `SessionTest.BlankOutputURLAdmitted` | components/backend/types/session.go:141-157 | For any input with a non-blank URL, any output whose URL is empty or white space only (whatever its branch) and any flag, validation passes, because only the input URL is checked for blankness |
| `SessionTest.ValidationTableInputOnly` | components/backend/types/session_test.go:15-75 | An input with a URL and no output is valid, with or without a branch |
| `SessionTest.ValidationTableOtherBranch` | components/backend/types/session_test.go:39-52 | The same URL with a different branch is valid |
| `SessionTest.ValidationTableOtherURL` | components/backend/types/session_test.go:53-66 | A different URL with the same branch is valid |
| `SessionTest.ValidationTableBothDiffer` | components/backend/types/session_test.go:25-90 | A different URL and a different branch is valid, with or without `autoPush: true` |
| `SessionTest.ValidationTableMissing` | components/backend/types/session_test.go:91-130 | A nil input fails with "input is required", even when an output is set. An empty or white-space-only URL fails with "input.url is required" |
| `SessionTest.ValidationTableIdentical` | components/backend/types/session_test.go:131-203 | The same URL with the same branch is the identical-repository error, whether both branches are "main", nil, `""` or white space only, with the error text "output repository must differ from input (different URL or branch required)" |
| `SessionTest.EncodingTable` | components/backend/types/session_test.go:228-377 | The expected maps of all seven rows of the encoding table: no branch gives no `"branch"` key, `autoPush: true` and `autoPush: false` give a stored `true` and `false`, and a nil flag is left out |

## Left out

- The session, status, request, workflow, reconciled-repo and condition types of components/backend/types/session.go:8-127. They are data declarations with no behaviour. Condition upsert-by-type is not part of these files.
- JSON marshalling and the `omitempty` field tags. They belong to Go's `encoding/json` library.
- `ParseRepoMap` in handlers/helpers.go, which is not part of this model. The decoder modelled is the one written inline in the round-trip test.
- Strings.IsSpace: Go's white-space set for `unicode.IsSpace` is written out as an assumption. It covers the ASCII spaces, U+0085, U+00A0 and the Unicode White_Space characters above U+00FF. The trimming lemmas do not depend on which characters are in the set.
- Strings.TrimSpace: Go trims UTF-8 bytes and treats invalid encodings specially. Here strings are sequences of Unicode scalar values, so byte-level encoding is not modelled.
- Session.Value: it holds only strings, booleans and nested maps. Other dynamic values (numbers, nil, slices) are not modelled. The decoder skips them in the same way it skips any value of the wrong kind.
- The Go test harness (`t.Run`, `t.Errorf`, `reflect.DeepEqual`). Each table row is stated as a lemma instead.
- The `StringPtr` and `BoolPtr` helpers. They are `Some(...)` here.
