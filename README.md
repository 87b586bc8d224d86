# OBS plugin test helpers, modelled in Dafny

The plugin test suite drives OBS Studio remotely and checks what the plugin docks
display. The logic the suite owns is small, and this project models it:

- **Widget-tree flattening.** `flatten_widgets` walks the widget tree that the
  UI-automation query returns. It yields each node before its descendants and visits
  the children in order. `Widgets.Flatten` models it as a function returning
  `seq<Widget>`. `test-plugins/test_vnc.py:10-14` is an identical copy of
  `test-plugins/helpers.py:8-12`, so both are modelled by the same function.
- **Label collection.** The VNC properties test filters that flattening down to the
  texts of the `QLabel` nodes (`Labels.Labels`).
- **Severity.** `_get_severity` turns the `SEVERITY` environment variable into a
  level. Unset or empty gives 0, `COVERAGE` gives 10 and `FULL` gives 20, in any
  letter case; any other value raises `ValueError`. The `severity(level)` decorator
  skips a test whose level is above the current one. The skip reason names the level
  through the level-to-name table, which raises `KeyError` for a level the table does
  not hold. Here the environment lookup is an `Option<string>` input. The exceptions
  are a `Result` carrying `Severity.Error`. The decorator's effect is a `Decision`:
  `Run` (the identity decorator) or `Skip(reason)`.

Files: `wrappers.dfy` (Option and Result), `widgets.dfy`, `labels.dfy`, `severity.dfy`.

## Model

| member | source | states |
|---|---|---|
| `Widgets.Flatten` | test-plugins/helpers.py:8-12 | the flattening has exactly as many entries as the tree has nodes (`Size`, counted independently) |
| `Widgets.RootFirst` | test-plugins/test_vnc.py:12 | the first element yielded is the argument itself |
| `Widgets.LeafFlatten` | test-plugins/test_vnc.py:12-14 | a widget without children flattens to the one-element sequence holding itself |
| `Widgets.ChildBlock` | test-plugins/helpers.py:11-12 | child `i`'s complete flattening is one contiguous block of the parent's flattening; it starts after the root and the blocks of children `0..i-1` |
| `Widgets.SubtreeAt` | test-plugins/helpers.py:10-12 | pre-order at every position: the node at index `j` is immediately followed by all its descendants, and that block is exactly its own flattening |
| `Widgets.FlattenComplete` | test-plugins/helpers.py:9-12 | a widget occurs in the flattening if and only if it is the root or a node below it at some depth |
| `Labels.LabelTexts` | test-plugins/test_vnc.py:60 | the filter yields at most one text per input node |
| `Labels.Labels` | test-plugins/test_vnc.py:60 | `labels` has at most as many entries as the tree has nodes |
| `Labels.LabelTextsMember` | test-plugins/test_vnc.py:60 | a text is kept if and only if some entry of the sequence is a `QLabel` with that text |
| `Labels.LabelsExactly` | test-plugins/test_vnc.py:60 | a text is in `labels` if and only if some node of the tree, at any depth, is a `QLabel` showing it |
| `Labels.DeepLabel` | test-plugins/test_vnc.py:10-14 | a `QLabel` anywhere below the root contributes its text, not only a direct child |
| `Labels.NoLabelNodes` | test-plugins/test_vnc.py:60 | a tree with no `QLabel` node yields an empty `labels`; other classes contribute nothing |
| `Labels.LabelsCompose` | test-plugins/test_vnc.py:13-14 | order: a node's labels are its own text (when it is a `QLabel`), then the labels of each child, in child order |
| `Labels.LabelsCount` | test-plugins/test_vnc.py:60 | the length of `labels` equals the number of `QLabel` nodes in the tree |
| `Severity.UpperChar` | test-plugins/helpers.py:28 | the result is never a lower-case ASCII letter; a character is either kept or is a lower-case ASCII letter mapped to the upper-case letter at the same alphabet position |
| `Severity.Upper` | test-plugins/helpers.py:28 | the model's ASCII upper-casing keeps the length and maps each character by `UpperChar` at the same position |
| `Severity.UpperIdempotent` | test-plugins/helpers.py:28 | upper-casing an upper-cased string changes nothing |
| `Severity.LevelOf` | test-plugins/helpers.py:27-29 | the search over the table in table order returns the level of the FIRST entry that carries the name; it returns nothing exactly when no entry has that name |
| `Severity.NameOf` | test-plugins/helpers.py:39 | the table lookup returns the name of the first entry with that level as key; it finds nothing (the `KeyError` case) exactly when no entry has that level |
| `Severity.GetSeverity` | test-plugins/helpers.py:21-30 | unset or empty gives 0; a non-empty value gives 10 iff it upper-cases to `COVERAGE` and 20 iff it upper-cases to `FULL`; every other value fails with `ValueError('Unknown SEVERITY "<value>"')`; a level is always 0, 10 or 20 |
| `Severity.SeverityDecision` | test-plugins/helpers.py:32-40 | a `ValueError` from the setting propagates; `level <= current` runs the test; `level > current` skips with "requires severity COVERAGE" for 10 and "requires severity FULL" for 20, and raises `KeyError(level)` for any other level |
| `Severity.DecisionIgnoresCase` | test-plugins/helpers.py:28 | two settings with the same upper-cased spelling both succeed or both fail, and when they succeed they give the same level and the same decision (a failure's message quotes the raw value) |
| `Severity.SpellingExamples` | test-plugins/helpers.py:27-30 | `coverage` gives 10 and `Full` gives 20; `FULL ` (trailing blank) and `0` are errors |
| `Severity.DecisionMonotone` | test-plugins/helpers.py:38-40 | a test that runs at some level also runs at every lower level under the same setting |
| `Severity.KnownLevelNeverFails` | test-plugins/helpers.py:38-39 | for the levels 10 and 20 and a valid setting, the decision never raises `KeyError`; it skips exactly when the current severity is below the level |
| `Severity.CoverageTestRuns` | test-plugins/helpers.py:38-40 | a test marked `SEVERITY_COVERAGE` runs exactly when `SEVERITY` upper-cases to `COVERAGE` or `FULL` |

## Left out

- Severity.UpperChar: upper-cases ASCII letters only, where Python's `str.upper` follows full Unicode case mapping. The only non-ASCII characters whose upper-case form is pure ASCII are `ß` (`SS`), `ı` (`I`), `ſ` (`S`) and the ligatures `ﬀ ﬁ ﬂ ﬃ ﬄ ﬅ ﬆ` (`FF FI FL FFI FFL ST ST`). None of these results occurs inside `COVERAGE` or `FULL`. So `s.upper()` equals one of the two names exactly when `s` is an ASCII letter-case variant of it. `GetSeverity` and `SeverityDecision` therefore agree with the source on every input; only the upper-casing taken on its own differs.
- Severity.Upper: keeps the length of the string and maps each character on its own. Python's `str.upper` can lengthen a string (`'ß'.upper()` is `'SS'`) and upper-cases non-ASCII letters; the model does neither. As the line above explains, this does not change the severity level or the decision.
- Reading `os.environ` is not modelled. The variable's value is the `Option<string>` argument.
- Building the `unittest.skip` object is not modelled, and neither is applying the returned decorator. The model keeps only the run-or-skip decision and the skip reason.
- The Python generator is lazy. The model builds the whole sequence at once; the order of the elements is the same.
- A widget is a record with only `className`, `text` and `children`. The other keys the UI-automation protocol returns are not modelled.
- All OBS control traffic is not modelled. That covers WebSocket requests, UI-automation queries and screenshots; they are calls into an external application.
- Sleeps, polling and timing-dependent assertions are not modelled. They depend on the wall clock.
- The loudness expectations are not modelled. They use floating-point `math.pow`, `math.log10` and `float()` parsing.
- Scene-collection and profile file editing are not modelled. Neither is the download cache. These are file and network I/O.
- The regular-expression checks on the latency, polarity and frequency strings are not modelled. Those strings come from the external plugin binaries.
