# Heatstroke check sheet: check-item master editor

A Dafny model of the check-item master editor of a construction-site
heatstroke check prototype (`app/heatstroke_check/check-item-settings/page.tsx`).
The editor keeps up to five named *patterns* (checklist variants), each an
ordered list of *check items*. An item has a name, a *response type* (free
text, single choice, temperature, numeric), a list of options and an optional
*normal value*: a selected option for single choice, or a min/max range for
temperature and numeric answers.

The model has four modules:

- `CheckItems` (`check_items.dfy`): the item record and the pure updaters that
  the page passes to its item store: rename, response-type change, option edit,
  remove and append, normal-value selection, and the range min/max setters. It
  also defines the item invariant `Consistent`. This invariant says the kind of
  the normal value matches the response type, and a single-choice selection is
  `""` or one of the current options.
- `Numerals` (`numerals.dfy`): the decimal rendering used in the default
  pattern label `パターン{n+1}`, with a parse-back function and its round trip.
- `Store` (`store.dfy`): the `Pattern` record, the default item and pattern
  builders, and the list transformations behind the store operations. These are
  replacing the active pattern's items, update by id (a map) and delete by id
  (a filter).
- `SettingsPage` (`settings_page.dfy`): the page state as a class `Editor` with
  the fields `patterns`, `activeTabIndex` and `saveMessage`, and one method per
  state-changing handler. Its object invariant `Valid` says there are between
  one and five patterns, the active tab exists, and tab `k` is labelled
  `パターン{k+1}`.

Identifiers are naturals taken from a counter field `nextId`. The source draws
them at random. As in the source, nothing assumes they are unique: update and
delete act on every item carrying the id.

The updater given to `handleUpdateItem` is a partial function
(`CheckItem --> CheckItem`). `UpdateItem` requires that it can be applied to
every active item carrying the id. Only the option editor needs this: its
index always comes from the rendered option list.

A new item is free text with the options `[""]` (page.tsx:52). This page has
no load step. Saving writes to browser storage first and sets the message
after that. A write that throws (a full quota, disabled storage) leaves the
handler before the message is set, since nothing catches it. `Save` takes the
write's outcome as a parameter.

## Model

| member | source | states |
|---|---|---|
| `CheckItems.CreateItem` | app/heatstroke_check/check-item-settings/page.tsx:47-54 | a new item has the given id, an empty name, free-text type, options `[""]`, no normal value, and satisfies the item invariant |
| `CheckItems.Rename` | app/heatstroke_check/check-item-settings/page.tsx:203-205 | only the name changes; id and answer configuration are kept, and so is consistency |
| `CheckItems.ChangeResponseType` | app/heatstroke_check/check-item-settings/page.tsx:115-138 | id and name are kept and the type is the new one; single choice keeps non-empty options (else `[""]`) with selection `""`; temperature/numeric get no options and range `("", "")`; free text gets no options and no normal value; the result always satisfies the item invariant |
| `CheckItems.ChangeResponseTypeIgnoresOldAnswer` | app/heatstroke_check/check-item-settings/page.tsx:115-138 | two items with the same id and name (and, for single choice, the same options) give the same result: the old normal value never survives a type change |
| `CheckItems.ChangeResponseTypeIdempotent` | app/heatstroke_check/check-item-settings/page.tsx:115-138 | choosing the same response type twice gives the same item as choosing it once |
| `CheckItems.KeepSelection` | app/heatstroke_check/check-item-settings/page.tsx:243-247 | the normal value's kind is kept; a single-choice selection still present is kept, a missing one becomes `""`; ranges and absence are unchanged; afterwards any selection is `""` or an option |
| `CheckItems.WithOptions` | app/heatstroke_check/check-item-settings/page.tsx:243-248 | the options are replaced, the selection is repaired, id/name/type are kept, and the item invariant is preserved |
| `CheckItems.EditOption` | app/heatstroke_check/check-item-settings/page.tsx:240-249 | the option at the index becomes the new text, length and all other options are kept; a selection still among the edited options is kept, a missing one becomes `""`; a range or absent normal value is unchanged; consistency is preserved |
| `CheckItems.RemoveAt` | app/heatstroke_check/check-item-settings/page.tsx:258 | removing an index inside the list shortens it by one and keeps the other options in order; an index past the end removes nothing |
| `CheckItems.RemoveOption` | app/heatstroke_check/check-item-settings/page.tsx:257-265 | the options lose the indexed entry; a selection still among the remaining options is kept, a missing one becomes `""`; a range or absent normal value is unchanged; consistency is preserved |
| `CheckItems.AppendOption` | app/heatstroke_check/check-item-settings/page.tsx:277-279 | `""` is appended to the options and the normal value is unchanged; consistency is preserved |
| `CheckItems.SelectNormal` | app/heatstroke_check/check-item-settings/page.tsx:294-298 | the normal value becomes the chosen single-choice value; the result is consistent exactly when the item is single choice and the value is `""` or an option |
| `CheckItems.SetRangeMin` | app/heatstroke_check/check-item-settings/page.tsx:323-330 | the normal value becomes a range whose min is the new value and whose max is the old max (`""` if there was no range); the numeric editor at lines 380-387 uses the same updater; consistent exactly for temperature and numeric items |
| `CheckItems.SetRangeMax` | app/heatstroke_check/check-item-settings/page.tsx:348-355 | symmetric to the min setter: new max, old min kept; the numeric editor at lines 405-412 uses the same updater |
| `CheckItems.RangeSettersCommute` | app/heatstroke_check/check-item-settings/page.tsx:323-355 | setting min and max in either order gives the same item, whose range is exactly `(min, max)` |
| `CheckItems.RangeSetterLastWins` | app/heatstroke_check/check-item-settings/page.tsx:323-355 | setting the same bound twice is the same as setting it once to the later value |
| `CheckItems.RangeOrderUnchecked` | app/heatstroke_check/check-item-settings/page.tsx:323-355 | the setters never compare the bounds: min `41.0` above max `35.0` is reachable |
| `Numerals.NatToString` | app/heatstroke_check/check-item-settings/page.tsx:63 | the rendering of a number is a non-empty digit string without a leading zero |
| `Numerals.ParseNatToString` | app/heatstroke_check/check-item-settings/page.tsx:63 | reading the rendered digits back gives the number |
| `Numerals.NatToStringInjective` | app/heatstroke_check/check-item-settings/page.tsx:63 | different numbers render differently |
| `Store.CreateDefaultItems` | app/heatstroke_check/check-item-settings/page.tsx:56-58 | `count` items, the k-th being a blank item with id `firstId + k` |
| `Store.PatternNameInjective` | app/heatstroke_check/check-item-settings/page.tsx:60-66 | two positions with the same label `パターン{n+1}` are the same position |
| `Store.CreateDefaultPattern` | app/heatstroke_check/check-item-settings/page.tsx:60-66 | a pattern labelled `パターン{index+1}` with exactly 10 blank, consistent items |
| `Store.WithItemsAt` | app/heatstroke_check/check-item-settings/page.tsx:81-87 | only the indexed pattern's items are replaced; the number of patterns, every id and name, and every other pattern are kept |
| `Store.UpdateById` | app/heatstroke_check/check-item-settings/page.tsx:103-108 | same length; each item carrying the id is replaced by its image, every other item is kept in place |
| `Store.UpdateAbsent` | app/heatstroke_check/check-item-settings/page.tsx:103-108 | updating an id that no item carries changes nothing |
| `Store.UpdatePreservesInvariant` | app/heatstroke_check/check-item-settings/page.tsx:103-108 | an updater that keeps the id and the item invariant keeps both for the whole list |
| `Store.DeleteById` | app/heatstroke_check/check-item-settings/page.tsx:110-113 | an item is in the result exactly when it was in the list and does not carry the id; the list never grows |
| `Store.DeleteAbsent` | app/heatstroke_check/check-item-settings/page.tsx:110-113 | deleting an absent id leaves the list unchanged |
| `Store.DeleteShrinksIffPresent` | app/heatstroke_check/check-item-settings/page.tsx:110-113 | the list gets shorter exactly when some item carries the id |
| `Store.DeleteConcat` | app/heatstroke_check/check-item-settings/page.tsx:110-113 | deletion distributes over concatenation, so the kept items stay in their relative order |
| `Store.DeleteUnique` | app/heatstroke_check/check-item-settings/page.tsx:110-113 | when exactly one item carries the id, deletion cuts out exactly that item and keeps the rest in order |
| `Store.DeleteIdempotent` | app/heatstroke_check/check-item-settings/page.tsx:110-113 | deleting the same id twice is the same as deleting it once |
| `SettingsPage.NamedByPositionDistinct` | app/heatstroke_check/check-item-settings/page.tsx:60-66 | patterns labelled by position have pairwise different labels |
| `SettingsPage.EditorTabNamesDistinct` | app/heatstroke_check/check-item-settings/page.tsx:89-96 | in every valid editor state the tab labels are pairwise different |
| `SettingsPage.Editor.constructor` | app/heatstroke_check/check-item-settings/page.tsx:69-71 | the page opens on the single default pattern `パターン1`, tab 0 active, empty message |
| `SettingsPage.Editor.AddPattern` | app/heatstroke_check/check-item-settings/page.tsx:89-96 | at 5 patterns nothing changes; otherwise exactly one default pattern for the old length is appended, it becomes the active tab and the message is cleared; no state ever holds more than 5 patterns |
| `SettingsPage.Editor.SelectTab` | app/heatstroke_check/check-item-settings/page.tsx:162 | the chosen existing tab becomes active |
| `SettingsPage.Editor.AddItem` | app/heatstroke_check/check-item-settings/page.tsx:98-101 | one blank item with a fresh counter id is appended to the active pattern; other patterns are unchanged; the message is cleared |
| `SettingsPage.Editor.UpdateItem` | app/heatstroke_check/check-item-settings/page.tsx:103-108 | the active items carrying the id are replaced by their images, the item count and order and all other items and patterns are kept, the message is cleared |
| `SettingsPage.Editor.DeleteItem` | app/heatstroke_check/check-item-settings/page.tsx:110-113 | the active pattern loses exactly its items carrying the id; other patterns are unchanged; the message is cleared |
| `SettingsPage.Editor.Save` | app/heatstroke_check/check-item-settings/page.tsx:140-143 | after a successful write the message becomes `保存しました`; after a throwing write it keeps its old value; the patterns are unchanged either way |

## Left out

- Rendering: the JSX, `Link`, the response-type labels, the tab buttons' styling, and the add-pattern button being hidden at 5 patterns (line 174). The cap in `AddPattern` is modelled.
- `generateId`: it uses `Math.random`. The model takes ids from the counter `nextId`.
- `Save`: the `localStorage` write and `JSON.stringify` are I/O and a foreign call. The model takes the write's outcome as a parameter and models only the message. A throwing write leaves `saveMessage` unchanged and the exception escapes the handler; the model does not capture the escaping exception.
- `temperatureOptions` and `numericOptions`: these are display candidate lists, and the first uses floating point with `toFixed`. No updater reads them; range bounds are kept as raw strings.
- The non-blank filter on the options offered as normal values (line 183) belongs to rendering. `SelectNormal` therefore accepts any value, and its contract says exactly when the result is consistent.
- React's batched state updates: `handleAddPattern` reads the rendered `patterns.length` while appending to the queued state. The two agree when handlers run one at a time, which is the model.
- `CheckItems.EditOption`: the index is required to be within the options. In the page it always comes from the rendered option list. JavaScript would grow the array for an index past the end; that can only happen when two items share an id.
- The other pages (`app/heatstroke_check/check-records/page.tsx`, `app/heatstroke_check/page.tsx`, `app/page.tsx`, `app/prototypes.ts`) hold only static data. The second prototype variant under `熱中症チェックシート/` is not part of this model.
