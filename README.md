# mappt uploader: a Dafny model

The mappt web application takes an uploaded crystal-structure file and shows
three strings for it: a composition name, an electronic character ("metal",
or "insulator with Δ = X.XX eV") and a topological class ("trivial" or
"non-trivial"). Everything numerical is done by foreign libraries: structure
parsing, featurization, and three trained models. The first-party logic lives
in `Upload` (web/uploader/models.py). This project models that logic and
proves what it promises:

- `Naming` — `get_system_name`. It is a method with the source's two loops.
  The first loop keeps each `[element, count]` pair once. The second loop
  blanks a count of 1. The method is proved to return `Formula` of the site
  elements, or the fixed message "File could not be read." when the file or a
  site cannot be read. Lemmas show that `Formula` lists each distinct element
  exactly once, in order of first appearance, followed by the decimal digits
  of its count when that count is 2 or more.
- `Frames` — the feature table as a row of named columns. Choosing a model's
  columns is a comprehension of labels to drop followed by `DataFrame.drop`.
  `.loc[0, 'gap pbe'] = gap` adds or overwrites one column.
- `Characterization` — `get_electronic_characterization` and
  `get_topological_characterization` as functions of the artifacts loaded at
  start-up and of the parsed structure. Each returns the string it shows and
  the ordered list of calls it made to the featurizer and the models. That
  list is what makes "the regressor is never called for a metal" statable.
- `Builtins` — the Python built-ins these steps depend on: `str(n)`,
  `str.split()`, `'%0.2f'` and `float()`.
- `Structures`, `Wrappers` — the parsed-structure input, and Option/Result.

Exceptions become values. Where the source catches an exception (the naming
step), the model returns the message. Where an exception from the source's
own code escapes the two characterizations (a structure file that cannot be
parsed, a gap that cannot be read back), the model returns an `Err`. Exceptions raised
inside the featurizer and the trained models are not modelled (see "Left
out"). Two exceptions that the source's own code cannot actually raise are
modelled too. `Frames.Drop` returns None for a label that is not in the
table; `Frames.Retain` takes its `.value`, which is well-formed only because
the labels come from the table itself, and `Frames.RetainIsFilter` proves
what it returns. `RecoverGap` returns None when no gap can be read back;
`Characterization.ElectronicGapRecovered` proves this never happens for an
electronic result.

## Model

| member | source | states |
|---|---|---|
| `Naming.SystemName` | web/uploader/models.py:33-48 | An unreadable file, or a site without species, gives exactly "File could not be read."; otherwise the result is `Formula` of the first species of each site. Both dedup and blanking loops are proved against that specification. |
| `Naming.Elements` | web/uploader/models.py:36 | The element list exists exactly when every site has a species; it then holds each site's first species, one per site, in site order. |
| `Naming.DedupCounts` | web/uploader/models.py:37-41 | Deduplicating the `[element, count]` pairs as the first loop does keeps one pair per distinct element, in order of first appearance, carrying that element's total count. |
| `Naming.FirstOccurrencesMembers` | web/uploader/models.py:36-41 | An element is in the name's element list if and only if some site has it. |
| `Naming.FirstOccurrencesDistinct` | web/uploader/models.py:39-41 | No element is listed twice. |
| `Naming.FirstOccurrencesOrdered` | web/uploader/models.py:39-41 | The listed elements appear in the order of their first site. |
| `Naming.RenderedBlanked` | web/uploader/models.py:42-46 | Rendering the pairs after the second loop and joining them gives each element followed by its numeral, which is `Formula`. |
| `Naming.NumeralSpec` | web/uploader/models.py:42-45 | A count of 1 leaves no numeral; a count n ≥ 2 leaves a canonical digit string whose value is n. |
| `Naming.FormulaFe2O` | web/uploader/models.py:36-46 | Sites Fe, Fe, O are named "Fe2O". |
| `Naming.FormulaCu` | web/uploader/models.py:36-46 | A single Cu site is named "Cu". |
| `Builtins.DecimalString` | web/uploader/models.py:45 | `str(n)` is a non-empty string of digits, with no leading zero unless n is 0. |
| `Builtins.DecimalRoundTrip` | web/uploader/models.py:45 | Reading the digits of `str(n)` gives back n. |
| `Builtins.DecimalStringOfValue` | web/uploader/models.py:45 | Conversely, a canonical digit string is `str` of its value. |
| `Builtins.Split` | web/uploader/models.py:72 | Every word `str.split()` returns is non-empty and holds no whitespace. |
| `Builtins.SplitJoin` | web/uploader/models.py:72 | Splitting words joined by single spaces gives back the words, when none is empty or holds whitespace. |
| `Builtins.FixedTwo` | web/uploader/models.py:63 | The `'%0.2f'` text of the gap is non-empty and holds no whitespace. |
| `Builtins.FixedTwoRoundTrip` | web/uploader/models.py:63 | `float` of the `'%0.2f'` text of a value of h hundredths is exactly h/100, negative values included. |
| `Frames.ToDrop` | web/uploader/models.py:56 | A label is to be dropped if and only if it is a table column that the keep list lacks. |
| `Frames.RetainIsFilter` | web/uploader/models.py:56-57 | Dropping those labels never raises and leaves exactly the columns whose label the keep list has, in table order. |
| `Frames.RetainSpec` | web/uploader/models.py:77-78 | The selected row holds a column if and only if the table has it and the keep list names it. It is no longer than the table. Selecting twice gives the same row as selecting once. |
| `Frames.SetColumnSpec` | web/uploader/models.py:79 | After `.loc[0, name] = v`, the existing labels and their order are unchanged. Columns with another label keep their values. Every column `name` holds v. When no column had that label, one is appended at the end. |
| `Characterization.InsulatorWords` | web/uploader/models.py:63 | The insulator string splits into six words with the formatted gap second to last. |
| `Characterization.GapRoundTrip` | web/uploader/models.py:69-72 | Reading the gap back from "insulator with Δ = <'%0.2f' of h> eV" gives h/100. Reading it back from "metal" gives 0. |
| `Characterization.ElectronicMetal` | web/uploader/models.py:58-64 | When the classifier's output is not 1, the result is exactly "metal". The regressor is never called, and changing it changes nothing. |
| `Characterization.ElectronicInsulator` | web/uploader/models.py:58-63 | When the classifier's output is 1, the regressor is called exactly once and the result is the insulator string of its gap. Its input is the full table's columns in its own keep list, whatever the classifier's list. |
| `Characterization.ElectronicSeparates` | web/uploader/models.py:58-70 | An electronic result is never empty, and it starts with 'm' if and only if it is "metal", so the topology step's first-character test tells the two results apart. |
| `Characterization.ElectronicGapRecovered` | web/uploader/models.py:58-72 | The gap the topology step reads back from the electronic result is the predicted gap: the regressor's gap for an insulator, 0 for a metal. |
| `Characterization.TopologicalSpec` | web/uploader/models.py:66-83 | For a readable file the read-back of the gap from the electronic result (lines 69-72) never fails, so the topology step returns a result. It makes the electronic calls, then a second featurization and one topology call on the kept columns with 'gap pbe' set to the predicted gap. Output 0 gives "trivial"; anything else gives "non-trivial". |
| `Characterization.TopologyInput` | web/uploader/models.py:77-79 | The topology classifier's row holds the column 'gap pbe' with the predicted gap. Every other column it holds is a full-table column in the topology keep list, and every such column is there. |
| `Characterization.UnreadableFails` | web/uploader/models.py:66-68 | An unreadable file makes both characterizations fail, with nothing caught. |
| `Characterization.TopologicalFeaturizesTwice` | web/uploader/models.py:73-75 | The topology step featurizes the structure twice, once inside the electronic step and once itself. |

## Left out

- Django model fields, storage of the uploaded file and URL routing: framework plumbing with no logic of the repository's own.
- Loading the pickled models and column lists from fixed paths: file I/O. The model takes them as an `Artifacts` value.
- Parsing the structure file (`IStructure.from_file`, `as_dict`): a foreign library. The model takes its result as an `Option<Structure>` holding, per site, the element symbols of its species.
- The featurizer and the three models' `predict`: opaque numerical code. The model takes them as deterministic functions. The `'structure'` input column that `del pred_df['structure']` removes is not part of the featurizer's row.
- Exceptions raised inside the featurizer or the trained models' `predict` (models.py:54, 58, 62, 75, 80): for instance a classifier refusing a NaN feature or a column set that does not match the fitted one. The featurizer and the models are total functions here, so a characterization of a readable file never fails because of them.
- The topology step parses the structure file twice: once itself (models.py:67) and once inside the electronic step (models.py:51, reached through line 68). The model takes one parse result for both, so it does not capture a second parse failing after the first succeeded.
- Floating point. Feature values are reals, and the NaN that `ignore_errors = True` can leave in a column is not represented. The regressor's gap is taken as already rounded to hundredths of an eV, so the rounding that `'%0.2f'` does to a binary float is not modelled. `float()` yields the exact decimal value instead of the nearest binary float.
- Builtins.ParseFloat: accepts only optionally signed decimal literals. It rejects the exponent, `inf`/`nan`, underscore and surrounding-whitespace forms that Python's `float()` also accepts. The `'%0.2f'` output never takes those forms.
- A value that rounds to -0.00 is printed as "-0.00" by Python; whole hundredths have no negative zero, so the model prints "0.00". Both read back as 0.
- pandas beyond column selection and single-cell assignment: the table is one row of `(label, value)` columns.
- `pred_df.drop(pred_df[labels], axis = 1)` hands `drop` a sub-frame, and pandas drops that frame's column labels. The model passes the labels directly.
- Concurrency and shared use of the loaded models: single-threaded, stateless calls.
