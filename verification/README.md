# Component extraction of gitlab-component-docs-gen, in Dafny

gitlab-component-docs-gen writes one README for a directory of GitLab CI/CD
component templates. For each `templates/*.yml` file, `parseTemplate` builds
a `ComponentData` record, and a `text/template` renders the records. This
project models `parseTemplate` and proves what it promises.

- **Decoding.** Reading the file and decoding its YAML are foreign calls. The
  model takes their outcome as a `Document`: `Unreadable`, `Malformed`, or
  `Parsed(config)`. On either failure `parseTemplate` returns the zero
  `ComponentData{}` with a `ReadError` or `ParseError` naming the path. No
  partial record is ever produced.
- **Collation.** Each entry of `spec.inputs` becomes one `InputData`. Its
  description and default are copied unchanged. It is `Required` exactly when
  its default is the empty string. `CollectInputs` is the `for … range` loop.
  Go leaves map iteration order unspecified, so the loop chooses each next
  key arbitrarily (`:|`).
- **Ordering.** `sort.Slice` sorts the slice in place with the comparator
  `InputLess`: required before optional, then by name using Go's byte-wise
  string `<` (`StringLess`). `SortInputs` sorts an `array` in place and
  guarantees what `sort.Slice` guarantees: no later element is less than an
  earlier one, and the elements are a permutation of the input. Map keys are
  distinct, so the result is strictly increasing under the comparator. Only
  one such sequence exists (`CollationUnique`), so the output does not depend
  on iteration order (`ParseTemplateDeterministic`).
- **Naming.** The component is named after the file's base name with its
  final extension removed. `FilePath.Base` and `FilePath.Ext` model Go's
  `filepath.Base` and `filepath.Ext` for Unix paths.

Files: `filepath.dfy` (module `FilePath`), `components.dfy` (module
`Components`: records, comparator, collation, sort and `ParseTemplate`) and
`scenarios.dfy` (module `Scenarios`: the concrete cases of main_test.go,
derived from the general contracts).

Records (main.go:15-41) become datatypes of the same names: `Inputs`,
`Spec`, `Config`, `InputData` and `ComponentData`. `EmptyComponent` is Go's
zero `ComponentData{}`, which `parseTemplate` returns beside an error
(main.go:50, 56). `TemplateError` is the error, by kind and path, and
`Document` is the outcome of reading and decoding the file (main.go:48-57).

Three facts about main.go shape the model:

- A default is a plain `string` (main.go:17). An explicitly empty default is
  therefore indistinguishable from an absent one: both make the input
  required (main.go:64). Typed defaults (booleans, numbers, lists, maps) do
  not exist in this code.
- The component description is `spec.description` from the same file
  (main.go:83). It is not read from a sibling document.
- There is no configuration resolution (project and version identifiers) in
  main.go.

## Model

| member | source | states |
|---|---|---|
| FilePath.TrimTrailingSeparators | main.go:78 | the result is a prefix of the path that does not end in '/', and everything removed is '/' |
| FilePath.LastElement | main.go:78 | the result is the suffix of the path that holds no '/' and is preceded by '/' or the start |
| FilePath.Base | main.go:78 | the base name is never empty, and it holds a '/' only when it is exactly "/" |
| FilePath.BaseOfJoin | main.go:78 | the base name of `dir + name` is `name` when `dir` is empty or ends in '/' and `name` is a non-empty element |
| FilePath.LastElementOfJoin | main.go:78 | the last element of `dir + name` is `name` when `name` holds no '/' |
| FilePath.BaseIsSeparatorOnlyForRoot | main.go:78 | the base name is "/" if and only if the path is a non-empty run of '/' |
| FilePath.Ext | main.go:79 | the extension is a suffix of the path that starts with '.', holds no '/' and no further '.', or it is empty |
| FilePath.ExtEmptyIffNoDot | main.go:79 | the extension is empty if and only if the last path element has no '.' |
| FilePath.ExtOfDottedName | main.go:79 | the extension of `stem + "." + ext` is `"." + ext` (only the final extension is taken) |
| FilePath.BaseAndExtOfFile | main.go:78-79 | the file `dir + stem + "." + ext` has base name `stem + "." + ext` and extension `"." + ext` |
| Components.ComponentName | main.go:77-79 | the name followed by the extension of the base name gives back the base name |
| Components.ComponentNameOfFile | main.go:78-79 | the component in `dir + stem + "." + ext` is named `stem` |
| Components.ComponentNameOfSplitBase | main.go:77-79 | when the base name is a stem followed by its extension, the component is named after the stem |
| Components.ComponentNameHasNoSeparator | main.go:78-79 | a component name holds no '/' unless the whole path is made of '/' |
| Components.StringLess | main.go:74 | a proper prefix is less than the longer string, and no string is less than one of its own proper prefixes |
| Components.StringLessIrreflexive | main.go:74 | no string is less than itself |
| Components.StringLessTransitive | main.go:74 | Go's string `<` is transitive |
| Components.StringLessTotal | main.go:74 | of two distinct strings, one is less than the other |
| Components.InputLess | main.go:69-75 | a required input comes before an optional one, and an optional input never comes before a required one |
| Components.InputLessIrreflexive | main.go:69-75 | the comparator never puts an input before itself |
| Components.InputLessTransitive | main.go:69-75 | the comparator is transitive |
| Components.InputLessTotal | main.go:69-75 | the comparator orders any two inputs with different names, so on one map's entries it is a strict total order |
| Components.StrictlyOrderedLayout | main.go:71-74 | an ordered sequence is exactly one with every required input before every optional input and names strictly ascending within each group |
| Components.SortedDistinctIsStrict | main.go:69-75 | sorted in the sense of `sort.Slice`, with distinct names, means strictly increasing |
| Components.StrictlyOrderedUnique | main.go:69-75 | two strictly increasing sequences with the same elements are equal |
| Components.EntryRecord | main.go:60-66 | the record for an entry carries its key as name, its description and default unchanged, and is required exactly when the default is empty |
| Components.FromEntry | main.go:59-67 | a record comes from the map exactly when its name is a key and it equals the record built for that key's entry |
| Components.NamesBound | main.go:59-67 | a sequence has at most as many names as records, and has distinct names when the counts agree |
| Components.CollationDistinctNames | main.go:59-67 | a collation has no duplicated input |
| Components.CollationPermuted | main.go:59-75 | a permutation of a collation is a collation (sorting drops and duplicates nothing) |
| Components.CollationUnique | main.go:59-75 | the ordered collation of a map is unique |
| Components.CollectInputs | main.go:59-67 | the loop yields exactly one record per key, with description and default copied and `Required` iff the default is empty |
| Components.IndexOfLeast | main.go:69-75 | the returned position holds an element no later element is less than |
| Components.Swap | main.go:69 | exchanges two elements in place and keeps the multiset |
| Components.SortInputs | main.go:69-75 | sorts the array in place, with no later element less than an earlier one, and keeps its multiset |
| Components.ParseTemplate | main.go:47-86 | a read or decode failure yields its error and the empty record; otherwise there is no error, the name is derived from the path, the description is `spec.description` verbatim, and the inputs are the strictly ordered collation of `spec.inputs` |
| Components.ParseTemplateDeterministic | main.go:59-75 | two runs on the same file produce the same record, whatever the map iteration order |
| Scenarios.DeployOrderIsOrdered | main_test.go:13-20 | the list `[app_name required, stage optional]` is strictly ordered |
| Scenarios.DeployOrderIsCollation | main_test.go:13-20 | the list `[app_name required, stage optional]` holds one record per declared input |
| Scenarios.DeployName | main_test.go:21-33 | the file `deploy.yml` in any directory names the component `deploy` |
| Scenarios.DeployPathName | main_test.go:21-33 | the path `dir/deploy.yml` names the component `deploy` |
| Scenarios.BasicParsing | main_test.go:11-37 | the two inputs of `deploy.yml` can only come out as `app_name` (required) followed by `stage` (optional, default "deploy") |
| Scenarios.ParseDeployFile | main_test.go:11-37 | `parseTemplate` on `dir/deploy.yml` returns no error and the component `deploy` with inputs `app_name` (required) then `stage` (optional) |
| Scenarios.RequiredFirstOrderIsCollation | main_test.go:39-73 | the expected list holds one record per declared input |
| Scenarios.RequiredFirstOrderIsOrdered | main_test.go:64-73 | the expected list alpha, gamma, beta, zebra is strictly ordered |
| Scenarios.SortingRequiredFirst | main_test.go:39-87 | the only possible order of the four inputs is alpha, gamma (required), then beta, zebra (optional) |
| Scenarios.NoInputs | main_test.go:109-130 | `simple.yml` with no inputs gives the component `simple` with an empty input list |

## Left out

- `main` (main.go:88-141): globbing `templates/*.yml`, `sort.Strings` on the paths, template parsing and execution, writing README.md and console messages. These are I/O and foreign-library calls.
- `os.ReadFile` and `yaml.Unmarshal` (main.go:48, 54) are foreign calls. Their outcome is the `Document` parameter; YAML decoding itself is not modelled.
- The text of the error messages and the wrapped cause (main.go:50, 56). The model keeps the error kind and the path.
- `formatDefault` and `ensureTemplate`, which main_test.go exercises, are not part of this model: they are not defined in main.go. For the same reason the typed defaults of main_test.go:158-228 are not modelled.
- Windows paths (volume names, '\\' as a separator) in `filepath.Base` and `filepath.Ext`. The model covers Unix paths only.
- Components.SortInputs: `sort.Slice`'s own algorithm (pattern-defeating quicksort) is not modelled. The model sorts by selection sort and proves the same guarantee. With distinct keys that guarantee determines the result.
- Strings are sequences of characters that stand for Go's bytes. This changes nothing for '/', '.' and byte-wise comparison.
