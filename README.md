# Median_washer in Dafny

Median_washer rerolls ("washes") the affixes of a game item until they satisfy a rule. It does this in a loop:

1. hover the mouse over the item;
2. read its tooltip with OCR;
3. check the text against the rule;
4. stop on a match, otherwise click the reroll button, wait, and try again.

The user can stop the loop with F5, and it gives up after `max_attempts` tries.

This project models the decision logic around that loop, and proves what it promises.

| module (file) | models |
|---|---|
| `Text` (text.dfy) | `normalize_text`, Python's `str.lower`, `str.strip`, `in` on strings, `str.isdigit` and `int()` of digits |
| `Matcher` (matcher.dfy) | `AffixMatcher.check`. Rule values are a `Condition` datatype (string, list, dict, None, other). The `eval` of expression rules is a tokenizer, a recursive-descent parser and an evaluator over `and` / `or` / `not` / parentheses / names / constants. It fails closed. |
| `MatcherProperties` (matcher_properties.dfy) | what `check` means: containment, conjunction, OR-then-AND dicts, operator precedence, fail-closed errors, and the worked example `A && (B \|\| C)` |
| `Geometry` (geometry.dfy) | `calculate_rect` and the corner normalisation of the setup wizard |
| `Washer` (washer.dfy) | class `GearWasher`: its fields, `setup_wizard` and the `run` loop. OCR text (or the exception a failed read raises), F5 and the keyboard's availability are inputs. Every effect (hover, read, click, wait, poll, bringing the console to the front, message box) is appended to a ghost action log. |
| `WasherProperties` (washer_properties.dfy) | how a run ends (match, F5, exhaustion, or a failed read), how many clicks and reads it makes, and the order of its effects |
| `Editor` (editor.dfy) | the data side of `ComplexRuleEditor`: the kind/label tables, the form state as class `RuleEditor`, the list maintenance behind its buttons, and `save_data` |
| `LegacyTuple` (tuples.dfy) | the fallback of `SimpleDB.get` that reads `"(100, 200)"` as an integer tuple |
| `Storage` (storage.dfy) | class `SimpleDB`. Its three tables are maps, with the uniqueness constraints on names and contents. |
| `Windows` (windows.dfy) | `find_window_by_title` over an enumerated window list, and the rect-to-size helpers |
| `Wrappers` (wrappers.dfy) | `Option`, and `Prefixed` for results that are built by appending |

Stateful code is modelled as classes whose methods state the new state:
- `GearWasher`;
- the editor's group list;
- the database tables.

Loops in the source are methods with loop invariants, proved equal to a specification function:
- `run`;
- `save_data`'s nested loops;
- the searches in `_remove_affix_row_helper` and `remove_group`;
- the window enumeration and selection;
- `list_keys`.

Pure code is functions and lemmas.

## Model

| member | source | states |
|---|---|---|
| Text.Normalize | src/gear_washer/matcher.py:11-16 | The normalized text is lower-case, holds only word characters and whitespace, and is never longer than the input. |
| Text.NormalizeIdempotent | src/gear_washer/matcher.py:13-16 | Normalizing an already normalized text changes nothing. |
| Text.NormalizeDeletesSymbols | src/gear_washer/matcher.py:15 | Punctuation is deleted, not turned into a space: `"A,b"` normalizes to `"ab"`. |
| Text.NormalizeConcat | src/gear_washer/matcher.py:13-15 | Normalization works character by character, so it distributes over concatenation. |
| Text.ContainsIffOccurs | src/gear_washer/matcher.py:39 | Python's `keyword in text` holds exactly when the keyword occurs at some position of the text. |
| Text.StripIsTrim | src/gear_washer/washer.py:96 | `strip()` keeps a slice of the input. Everything cut off is whitespace, and the kept text neither starts nor ends with whitespace. |
| Text.StripTrimmed | complex_editor.py:265-267 | Text with no whitespace at either end strips to itself. |
| Text.StripBlank | complex_editor.py:269-270 | Text made only of whitespace strips to the empty string, so such a row counts as blank. |
| Matcher.Check | src/gear_washer/matcher.py:18-57 | A `None` or other non-str/list/dict rule is false. A dict with neither `OR` nor `AND` is true. |
| Matcher.WordToken | src/gear_washer/matcher.py:70-86 | A word that `eval` reads as a name is the word itself, and never one of the reserved words `and`, `or`, `not`, `True`, `False`. |
| Matcher.ReplaceAll | src/gear_washer/matcher.py:66 | A text in which the pattern's first character never occurs is returned unchanged. |
| Matcher.ToPythonSyntax | src/gear_washer/matcher.py:66 | A rule with no `&` and no `\|` reaches `eval` exactly as written. |
| Matcher.AtomRuns | src/gear_washer/matcher.py:72 | A text without keyword characters yields no keywords. |
| Matcher.AtomRunsAreWords | src/gear_washer/matcher.py:72 | Every extracted keyword is a non-empty run of keyword characters. |
| Matcher.CheckExpression | src/gear_washer/matcher.py:59-89 | An expression whose rewritten text does not parse is false (the `except` branch). What a parsed one means is `MatcherProperties.ExpressionMeaning`. |
| Matcher.RunLength | src/gear_washer/matcher.py:72 | The keyword run at the start of a text is maximal: all of it is keyword characters, and the next character is not. |
| MatcherProperties.KeywordIsContainment | src/gear_washer/matcher.py:32-39 | A string without `&&`, `\|\|` or both parentheses matches exactly when its normalized form occurs in the normalized text. |
| MatcherProperties.EmptyKeywordAlwaysMatches | src/gear_washer/matcher.py:37-39 | A keyword that normalizes to nothing matches every text. |
| MatcherProperties.ListIsConjunction | src/gear_washer/matcher.py:41-43 | A list rule holds exactly when every element holds. The empty list holds. |
| MatcherProperties.DictIsOrThenAnd | src/gear_washer/matcher.py:45-55 | A dict rule holds exactly when some `OR` element holds (if `OR` is present) and every `AND` element holds (if `AND` is present). |
| MatcherProperties.EvalIsDenote | src/gear_washer/matcher.py:76-86 | When every name is bound to its presence in the text, evaluation never fails, and gives the formula's truth value with names read as presence. |
| MatcherProperties.ParsedNamesAreRead | src/gear_washer/matcher.py:72-81 | Every name in a parsed expression is one of its tokens, so every name is bound in the context. |
| MatcherProperties.ExpressionMeaning | src/gear_washer/matcher.py:59-89 | An expression rule holds exactly when it parses and its formula is true with each name read as "its normalized form occurs in the normalized text". An expression that does not parse is false. |
| MatcherProperties.AndBindsTighterThanOr | src/gear_washer/matcher.py:66-86 | `a and b or c` groups as `(a and b) or c`. |
| MatcherProperties.OrBindsLooserThanAnd | src/gear_washer/matcher.py:66-86 | `a or b and c` groups as `a or (b and c)`. |
| MatcherProperties.NotBindsTighterThanAnd | src/gear_washer/matcher.py:86 | `not a and b` groups as `(not a) and b`. |
| MatcherProperties.UnclosedParenthesis | src/gear_washer/matcher.py:84-89 | An opening parenthesis that is never closed is a syntax error. |
| MatcherProperties.JuxtaposedNames | src/gear_washer/matcher.py:84-89 | Two names side by side are a syntax error. |
| MatcherProperties.TokenizeRejects | src/gear_washer/matcher.py:84-89 | In the model's grammar, a character that no token can hold makes the whole expression a syntax error. Python's `eval` accepts more characters; see "## Left out". |
| MatcherProperties.ForeignCharFailsClosed | src/gear_washer/matcher.py:84-89 | In expression mode, the model's grammar rejects a character outside keywords, blanks, parentheses, `&` and `\|`, so the rule is false. Python's `eval` gives a value for some of them; see "## Left out". |
| MatcherProperties.BangFailsClosed | src/gear_washer/matcher.py:34-89 | `!A && B` is false whatever the text says. |
| MatcherProperties.RewriteAndOfOr | src/gear_washer/matcher.py:66 | The rewrite turns `A && (B \|\| C)` into `A  and  (B  or  C)`. |
| MatcherProperties.AndOfOrMeaning | src/gear_washer/matcher.py:59-86 | `check(text, "A && (B \|\| C)")` is present(A) and (present(B) or present(C)). |
| Geometry.CalculateRect | run_washer_v2.py:36-44 | Width and height are not negative. `x`, `y` are the smaller coordinates and `x + w`, `y + h` the larger ones, so both corners lie on the rectangle. |
| Geometry.CalculateRectSymmetric | run_washer_v2.py:36-44 | Swapping the two corners gives the same rectangle. |
| Geometry.CalculateRectOtherDiagonal | run_washer_v2.py:20-44 | The two corners of the other diagonal give the same rectangle. |
| Geometry.CalculateRectIsSmallest | run_washer_v2.py:36-44 | Every rectangle on which both corners lie contains the result. |
| Geometry.CalculateRectOfCorners | run_washer_v2.py:36-44 | A rectangle of non-negative size is rebuilt from its top-left and bottom-right corners. |
| Washer.AttemptCount | src/gear_washer/washer.py:114 | `range(max_attempts)` runs `max_attempts` times, and not at all when that is negative. |
| Washer.GearWasher.constructor | src/gear_washer/washer.py:13-23 | No position, region or rule is set. 1000 attempts, a 1 s interval, and an empty log. |
| Washer.GearWasher.SetupWizard | src/gear_washer/washer.py:59-100 | Sets the gear and button positions. The region is `calculate_rect` of the two corners. A non-blank typed rule replaces the rule. A blank one keeps a truthy rule, or sets "冰霜抗性". Afterwards the washer is configured with a truthy rule. |
| Washer.GearWasher.Run | src/gear_washer/washer.py:105-160 | Unconfigured: no effect and no attempt. Otherwise a 3 s pause, then exactly the outcome and effects of the specification `OutcomeFrom` / `LogFrom`, a failed read included. |
| Washer.GearWasher.Attempt | src/gear_washer/washer.py:115-156 | One loop body: hover, tooltip wait, read, then either bringing the console to the front and the message box, or click, interval wait and F5 poll. A read that raises ends the run right there. The run ends exactly on a failed read, a match or an F5 stop. |
| Washer.GearWasher.Attempts | src/gear_washer/washer.py:114-160 | The `for … else` loop: its outcome and its log are those of the specification from attempt 0. |
| WasherProperties.OutcomeIsFirstEnd | src/gear_washer/washer.py:114-160 | The run ends at the first attempt whose read failed, that matched, or that was stopped. If none did, it runs out of attempts. |
| WasherProperties.FailedIffFirstFailure | src/gear_washer/washer.py:114-124 | The screen reader's exception ends the run at attempt `k` exactly when `k` is the first attempt that ended, and its read failed. |
| WasherProperties.MatchedIffFirstMatch | src/gear_washer/washer.py:129-144 | The run stops on a match at attempt `k` exactly when `k` is the first attempt that ended, and it matched. |
| WasherProperties.ExhaustedIffNoEnd | src/gear_washer/washer.py:159-160 | "Max attempts reached" exactly when every read succeeded, no attempt matched, and F5 never stopped the run. |
| WasherProperties.StoppedNeedsKeyboard | src/gear_washer/washer.py:154-156 | An F5 stop happens only with the keyboard module present, F5 held, and a successful read that did not match in that attempt. |
| WasherProperties.AttemptCounts | src/gear_washer/washer.py:119-148 | Every attempt reads the region once, and clicks once unless its read failed or matched. |
| WasherProperties.RunCounts | src/gear_washer/washer.py:114-160 | A run matched at attempt `k` clicks `k` times and reads `k + 1` times. Stopped at `k`: `k + 1` clicks and reads. Exhausted: `max_attempts` of each. Failed at `k`: `k` clicks and `k + 1` reads. |
| WasherProperties.LogFromOrdered | src/gear_washer/washer.py:119-154 | Every read comes right after the hover and the tooltip wait. Every F5 poll comes right after the click and the interval wait. |
| WasherProperties.StoppedEndsAfterClick | src/gear_washer/washer.py:148-156 | A run that F5 stopped ends with click, interval wait and poll, in that order. |
| WasherProperties.MatchedEndsWithAlert | src/gear_washer/washer.py:124-144 | A matching run ends with the read that matched, then bringing the console to the front, then the message box, with no click. |
| Editor.TypeMapsInverse | complex_editor.py:4-9 | `REVERSE_TYPE_MAP` is the exact inverse of `TYPE_MAP`. |
| Editor.KindIsKnown | complex_editor.py:256 | The saved kind is always AND, COUNT or NOT. An unknown label saves as AND. |
| Editor.LabelThenKind | complex_editor.py:83-84 | Showing a stored kind and saving it gives the kind back. An unknown kind shows as "和" and saves as AND. |
| Editor.KindThenLabel | complex_editor.py:256 | Saving a label and showing the kind gives the label back. An unknown label comes back as "和". |
| Editor.NewRow | complex_editor.py:158-175 | A dict item fills the name and the `str()` texts of its minimum and maximum. A string item fills only the name. Any other item gives a blank row. |
| Editor.NewGroup | complex_editor.py:67-155 | The kind box shows `TYPE_MAP`'s label for the stored type, "和" for a missing or unknown one. The count entries hold the `str()` texts of `min` and `max`, blank when absent. A group has at least one row: one per stored item, or a single blank row when there are none. |
| Editor.DefaultGroupShape | complex_editor.py:67-141 | The default group shows "和", has no bounds, and has one blank row. |
| Editor.FrameIndex | complex_editor.py:207-234 | For rows and for groups alike: the index found is the first item in that frame. None means no item is in that frame. |
| Editor.Without | complex_editor.py:238 | The filtered list holds exactly the groups other than the target. |
| Editor.WithoutDistinct | complex_editor.py:236-238 | With distinct frames, filtering out a group removes exactly its position and keeps the others in order. |
| Editor.Bound | complex_editor.py:274-279 | A blank bound is absent. A bound that `float()` rejects fails. Otherwise the bound is the parsed value. |
| Editor.SaveRow | complex_editor.py:265-280 | A row is dropped exactly when its stripped name is empty. With no bound it is saved as the bare name. Otherwise it is a dict with the name and only the filled bounds, each the `float()` of its stripped entry. It fails exactly when a filled bound does not parse. |
| Editor.CountBound | complex_editor.py:289-291 | Group `min`/`max` exist only for COUNT groups whose stripped entry is all digits, and then hold `int()` of that entry. |
| Editor.SaveGroup | complex_editor.py:256-293 | The saved kind comes from the label. The affixes are the saved rows. Bounds appear only on COUNT groups with digit entries, and hold `int()` of the stripped entries. It fails exactly when its rows fail. |
| Editor.SaveRowsFails | complex_editor.py:264-280 | Saving a group's rows fails exactly when some row has a bound that does not parse. |
| Editor.SaveRowsKeepsNamed | complex_editor.py:264-280 | Blank rows are dropped. Every other row is saved, one for one and in order. |
| Editor.SaveAllPerGroup | complex_editor.py:246-293 | There is one saved group per form group, in order, even when a group saves no affixes. It fails exactly when some group fails. |
| Editor.LoadThenSave | complex_editor.py:67-293 | A stored group with a known kind and trimmed plain names loads and saves back to the same kind and names. |
| Editor.PlainRowsSave | complex_editor.py:274-275 | Rows loaded from trimmed plain names save as those bare names. |
| Editor.DefaultGroupSaves | complex_editor.py:245-293 | A reset form saves as one AND group with no affixes and no bounds. |
| Editor.SaveAffixes | complex_editor.py:263-280 | The inner loop of `save_data` computes the specification `SaveRows`. |
| Editor.RuleEditor.constructor | complex_editor.py:54-59 | A non-empty stored list shows one group per stored group, in order. Otherwise one default group. Frames are distinct. |
| Editor.RuleEditor.AddGroup | complex_editor.py:67-155 | Appends the group built from the data, or from the default group. The frames it uses are fresh. |
| Editor.RuleEditor.AddAffixRow | complex_editor.py:158-205 | Appends one blank row in a fresh frame to that group only. |
| Editor.RuleEditor.RemoveAffixRow | complex_editor.py:207-218 | Deletes only the first row in that frame, keeping the others in order. If no row is in that frame, nothing changes. |
| Editor.RuleEditor.RemoveGroup | complex_editor.py:220-238 | Drops the group in that frame and keeps the others in order. If no group is in that frame, nothing changes. |
| Editor.RuleEditor.ResetGroups | complex_editor.py:61-65 | Leaves exactly one default group. |
| Editor.RuleEditor.SaveData | complex_editor.py:245-293 | Computes the specification `SaveAll` of the form. |
| LegacyTuple.JoinSplit | src/gear_washer/db_helper.py:254 | Joining the pieces of `split(',')` gives the text back. |
| LegacyTuple.SplitJoin | src/gear_washer/db_helper.py:254 | Splitting the join of comma-free pieces gives the pieces back. |
| LegacyTuple.SplitPartsFree | src/gear_washer/db_helper.py:254 | No piece of a split holds the separator. |
| LegacyTuple.ShowNatValue | src/gear_washer/db_helper.py:255 | `int()` of the decimal digits of `n` is `n`. |
| LegacyTuple.ParseShowInt | src/gear_washer/db_helper.py:255 | `int(repr(i)) == i` for every integer, negative ones included. |
| LegacyTuple.ParsePartsMeaning | src/gear_washer/db_helper.py:254-257 | The parse succeeds exactly when every non-blank part is an integer. It gives at most one item per part. |
| LegacyTuple.ParseTuple | src/gear_washer/db_helper.py:249-258 | A tuple is read exactly when the text starts with "(", ends with ")", and every non-blank comma-separated part is an integer. It has at most one item per part. |
| LegacyTuple.ParseTupleText | src/gear_washer/db_helper.py:249-258 | Text that `str()` wrote for a tuple of integers, e.g. "()", "(5,)" or "(100, 200)", parses back to that tuple. |
| Storage.UpsertTypeMeaning | src/gear_washer/db_helper.py:74-93 | After saving, exactly one row has the name and it holds the saved values. An existing row keeps its id. A new row gets a fresh id. All other rows are unchanged. |
| Storage.RenameTypeMeaning | src/gear_washer/db_helper.py:191-199 | A rename fails exactly when another row has the new name, and then nothing changes. Otherwise the row is renamed. Names stay unique. |
| Storage.UpsertAffixMeaning | src/gear_washer/db_helper.py:145-151 | Adding existing content only changes that row's description, so contents stay unique. Rows with other contents are unchanged. |
| Storage.UpdateAffixMeaning | src/gear_washer/db_helper.py:156-175 | The update succeeds exactly when the id exists and no other row has the content. On failure nothing changes; on success both fields change. |
| Storage.Encode | src/gear_washer/db_helper.py:220-226 | A JSON-able value is stored as its `json.dumps` text. Any other value is stored as its `str()` text. |
| Storage.Decode | src/gear_washer/db_helper.py:243-258 | JSON is tried first. Non-JSON "(…)" text whose non-blank parts are all integers comes back as that tuple, and only such text does. Any other text comes back unchanged. |
| Storage.Fetch | src/gear_washer/db_helper.py:237-259 | The default is returned exactly when the key is absent. |
| Storage.FetchAfterSet | src/gear_washer/db_helper.py:220-259 | After `set(k, v)`, `get(k)` decodes the new text. Other keys read as before. |
| Storage.FetchAfterDelete | src/gear_washer/db_helper.py:237-265 | After `delete(k)`, `get(k)` gives the default. Other keys read as before. |
| Storage.JsonRoundTrip | src/gear_washer/db_helper.py:222-248 | A JSON-able value comes back as itself whenever `json.loads` undoes `json.dumps` on it. |
| Storage.TextRoundTrip | src/gear_washer/db_helper.py:220-258 | A value stored as its `str()` text comes back as that text when the text is neither JSON nor a "(…)" tuple of integers. |
| Storage.LegacyTupleRoundTrip | src/gear_washer/db_helper.py:249-258 | Old data written as `str()` of an integer tuple comes back as that tuple. |
| Storage.SimpleDB.constructor | src/gear_washer/db_helper.py:6-60 | A new database has empty tables and satisfies the uniqueness constraints. |
| Storage.SimpleDB.SaveEquipmentType | src/gear_washer/db_helper.py:62-94 | Upserts by name (see `UpsertTypeMeaning`). It hands out a new id only for a new name, and keeps names unique. Afterwards `get_equipment_type_by_id` returns the saved positions and window title: under the existing row's id for a known name, under the new id otherwise. |
| Storage.SimpleDB.GetEquipmentTypeById | src/gear_washer/db_helper.py:96-119 | Finds a row exactly when the id exists, and returns that row with its window title. |
| Storage.SimpleDB.GetEquipmentType | src/gear_washer/db_helper.py:121-138 | Finds a row exactly when some row has the name, and returns its id and positions without the window title. |
| Storage.SimpleDB.RenameEquipmentType | src/gear_washer/db_helper.py:191-199 | Returns and applies the rename rule of `RenameTypeMeaning`. |
| Storage.SimpleDB.DeleteEquipmentType | src/gear_washer/db_helper.py:201-205 | Removes the row with that id, if any, and nothing else. |
| Storage.SimpleDB.AddAffix | src/gear_washer/db_helper.py:140-154 | Upserts by content (see `UpsertAffixMeaning`) and returns True. |
| Storage.SimpleDB.UpdateAffix | src/gear_washer/db_helper.py:156-175 | Returns and applies the update rule of `UpdateAffixMeaning`. |
| Storage.SimpleDB.RenameAffix | src/gear_washer/db_helper.py:207-212 | Sets the description of the row with that id, if any, and returns True. |
| Storage.SimpleDB.DeleteAffix | src/gear_washer/db_helper.py:214-218 | Removes the row with that id, if any, and nothing else. |
| Storage.SimpleDB.Set | src/gear_washer/db_helper.py:220-235 | Stores the JSON text, or the `str()` of a non-JSON value, under the key, replacing the old one. |
| Storage.SimpleDB.Get | src/gear_washer/db_helper.py:237-259 | The default exactly when the key is missing. Otherwise JSON text comes back decoded. Non-JSON "(…)" text whose non-blank parts are all integers comes back as that tuple, whatever its spacing. Any other text comes back as stored, and a decoded result only ever comes from JSON text. |
| Storage.SimpleDB.Delete | src/gear_washer/db_helper.py:261-265 | Removes the key and nothing else. |
| Storage.SimpleDB.ListKeys | src/gear_washer/db_helper.py:267-272 | Returns each stored key that starts with the prefix exactly once, and no other key. |
| Windows.Bounds | src/gear_washer/win32_utils.py:64-68 | `x`, `y` are the left and top edges. `x + w` and `y + h` are the right and bottom edges. |
| Windows.Info | src/gear_washer/win32_utils.py:62-69 | The window dictionary carries the handle, the title and the window's bounds. |
| Windows.CandidatesMeaning | src/gear_washer/win32_utils.py:51-70 | An entry is collected exactly when some enumerated window is visible, has a non-empty title containing the text, and yields that entry. |
| Windows.FirstExactMeaning | src/gear_washer/win32_utils.py:76-78 | The exact-title search finds the earliest entry whose title equals the text. It finds nothing only when no title is equal. |
| Windows.SelectMeaning | src/gear_washer/win32_utils.py:75-83 | An exact title wins over partial matches, the earliest one first. Without one, the first candidate is taken. Nothing is returned only without candidates. |
| Windows.SelectedIsCandidate | src/gear_washer/win32_utils.py:41-83 | The chosen window is a visible, titled window holding the text. None is chosen only when no window qualifies. |
| Windows.FindWindowByTitle | src/gear_washer/win32_utils.py:41-83 | An empty title finds nothing. Otherwise the two loops compute the specification `Select(Candidates(...))`. |
| Windows.GetWindowRect | src/gear_washer/win32_utils.py:85-89 | None exactly when the rectangle query fails. Otherwise the position and size span the rectangle. |
| Windows.ForegroundWindowInfo | src/gear_washer/win32_utils.py:16-39 | None exactly when there is no foreground window. A failed rectangle query leaves position and size 0. Otherwise they are `get_window_rect`'s. |

## Left out

- Screen capture, OCR, mouse movement, clicks, sleeping, keyboard polling, bringing the console window to the front, message boxes and console output are not modelled as actions in the world. OCR text, or the exception a failed capture or OCR call raises, and F5 state are inputs to `Run`, and the effects appear only in a ghost action log. `_wait_for_key`, `_wait_for_limit`, `input()` and the countdown become parameters of `SetupWizard`.
- The GUI, its worker threads and `stop_requested` are concurrency and UI. `run` never reads `stop_requested`, so F5 is the only stop that `run` itself polls.
- Washer.GearWasher.Run: two exception exits are not modelled. Ctrl+C raises `KeyboardInterrupt` anywhere inside `run`, and run_washer_v2.py:67-70 catches it and reports that the user stopped. pyautogui's fail-safe raises `FailSafeException` out of `moveTo` (washer.py:119) or `click` (washer.py:148) when the pointer sits in a screen corner, which ends `run` with an exception. `World` has no input for either, so `Outcome` has no case for them, and only a failed OCR read ends the run with an exception (`Failed`).
- Editor.RuleEditor.constructor: an `initial_data` item that is neither a dict nor None (a string, say) makes `data.get` raise `AttributeError` when its group is built. `GroupData` has no such item, so this failure is not modelled.
- Widgets are not modelled. Each editor frame is a number handed out by the editor. `destroy()` calls and the `save_data` callback are left out. `remove_group` called with a group dictionary rather than a frame is not modelled.
- Matcher: `eval` is replaced by a grammar of `and`/`or`/`not`/parentheses/names/`True`/`False`/`None` and decimal integer literals, and every other construct is a syntax error, so the rule is false. Python's `eval` differs in these cases:
  - arithmetic and comparisons: `技能等级+3` is truthy in Python and false here;
  - float and hexadecimal literals;
  - string literals;
  - newlines inside parentheses.
- MatcherProperties.TokenizeRejects: states the model's grammar, not Python's tokenizer. `eval` also reads `,` `#` `[` `{` `^` `~` and more, and the model rejects them all. So do binary, octal and imaginary literals (`0b1`, `0o7`, `3j`). A number run straight into a keyword (`1and A`) is also rejected, where CPython only warns.
- MatcherProperties.ForeignCharFailsClosed: in Python these rules give a value, not an error, while the model makes them false:
  - tuple displays such as `(冰霜抗性, 攻击速度)` and `A && B,` are non-empty tuples, which are always truthy, so `run` would stop at the first read;
  - `() \|\| A` gives `A`;
  - `&`, `\|`, `^` and `~` act as bitwise operators on the bools (`(A & B)` is A and B, `(~A)` is always truthy);
  - `(A if B else C)`;
  - list and set displays (`[A]`, `{A}`);
  - a trailing `#` comment, or a trailing newline;
  - a name holding a character outside the keyword class, such as `_`, an accented letter or a CJK ideograph outside U+4E00–U+9FA5: `A || x_y` is True in Python when `A` is present, because `or` short-circuits and `x_y` is never looked up, and it raises `NameError` (so false) otherwise.
- Matcher.Check: an `OR` or `AND` value that is not a list is not modelled. A string value is iterated character by character, so `{"OR": "冰霜"}` matches when any one of its characters is present. `None` or a number raises `TypeError` out of `check` and out of `run`. `DictEntry` holds lists only.
- Unicode: `lower()` is ASCII-only. `\w` is ASCII letters, digits, `_` and the CJK ideograph ranges U+3400–U+4DBF and U+4E00–U+9FFF. Python's full Unicode tables are not modelled.
- `str.isdigit()` and `int()` accept only ASCII digits here. Python also accepts other Unicode digits, and `int()` accepts underscores.
- `float()` in the editor is an input parse function, and float values are not reasoned about.
- `json.dumps`/`json.loads` are input functions. `Storage.JsonRoundTrip` requires that they invert each other on the value.
- SQLite's `LIKE` is modelled as a case-sensitive prefix test. Its wildcards in the prefix and its ASCII case-insensitivity are not modelled.
- Storage: sqlite connections, `updated_at` timestamps, the `ALTER TABLE` migration and persistence across runs are not modelled. The tables start empty.
- Storage.SimpleDB.SaveEquipmentType: `AUTOINCREMENT` ids are modelled as a counter that never reuses an id. Only the freshness of a new id is claimed, not its value.
- `get_all_affixes` and `list_equipment_types` are plain listings of the tables and are not modelled.
- Storage.SimpleDB.ListKeys: the order of the returned keys (SQLite's scan order) is not modelled.
- Editor: a stored `affixes` value that is not a list is represented as an empty list. Both load as one blank row.
- `SimpleDB.get`'s default is a `Default` result rather than a caller-supplied value.
- Windows: `EnumWindows`, `GetWindowTextW`, `IsWindowVisible` and `GetWindowRect` become a given sequence of window records. The 32-bit `LONG` edges are unbounded integers, as Python's subtraction on them is.
