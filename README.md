# Markup registry and navigation walker

This project models the markup system of a WordPress theme.

Every structural HTML element the theme prints is opened and closed
through a **markup id** such as `main` or `nav_menu_item`. For each id,
six hooks let other code act on the element. Their names are the id,
prefixed with `theme_` and followed by a suffix:

- `_markup` renames the tag;
- `_markup_attributes` rewrites the attribute array;
- `_before_markup`, `_prepend_markup`, `_append_markup` and
  `_after_markup` inject text around and inside the element.

A process-wide map remembers the tag each open id was opened with, so a
close needs only the id. Attribute arrays are serialised by
`esc_attributes`. Each value is escaped by an escaper chosen from the
attribute's name. The theme's menu walker, `Custom_Nav_Menu`, renders
WordPress menus through this registry.

Modules, one file each:

- `PhpValues` (`values.dfy`): the PHP values an attribute array holds,
  PHP truthiness, string conversion, and the decimal text of an integer.
- `PhpArray` (`php_array.dfy`): ordered PHP arrays with string keys.
  Assigning to a present key keeps its place. A new key goes to the
  end. `unset` removes a key.
- `HookBus` (`hook_bus.dfy`): the hook table. Each hook name has a
  chain of registrations in priority order, with equal priorities kept
  in the order they were added. It also holds `add_filter`/`add_action`
  and `remove_all_filters` at a priority.
- `MarkupAttributes` (`attributes.dfy`): `esc_attributes`, and the
  filter closures of `add_attributes` and `remove_attributes`.
- `Markup` (`markup.dfy`):
  - the hook names;
  - the callbacks the theme registers;
  - the open-tag map, as the `Registry` class whose methods update it
    in place;
  - `get_open_markup`, `get_close_markup`, `get_selfclose_markup`,
    `get_attributes`, `is_markup_open` and their echoing variants;
  - the helpers that register and remove callbacks.
- `MarkupProperties` (`markup_props.dfy`): what the registry promises.
- `NavMenu` (`nav_menu.dfy`): the walker class `CustomNavMenu`, with
  its `ariaLabelledby` field and its four methods.
- `NavMenuProperties` (`nav_menu_props.dfy`): what the walker promises.

The hook table, the escapers (`esc_attr`, `esc_url`, `esc_js`,
`esc_html`) and the debug flag (`THEME_DEBUG_MARKUP`) are parameters.
The escapers are arbitrary total string functions. The text an action
prints is returned rather than buffered. Each `get_...` operation has
two forms:

- a function of the hook table and the open-tag map, returning the text
  and the new map (`OpenMarkup`, `CloseMarkup`, `SelfcloseMarkup`);
- a method of `Registry` that changes the map in place and is proved to
  agree with that function.

The walker's methods take the output buffer and return it extended.
They also take the registry, which they change.

## Model

| member | source | states |
|---|---|---|
| PhpValues.Decimal | includes/class-custom-nav-menu.php:76 | The interpolated text of a non-negative integer is a string of decimal digits whose value is that integer; it is a single digit exactly below ten and starts with '0' only for zero |
| PhpValues.DecimalInjective | includes/class-custom-nav-menu.php:76 | Two numbers with the same interpolated text are equal |
| PhpArray.Set | includes/markup.php:534-540 | Assigning to a present key keeps the key sequence; assigning to a new key appends the entry at the end |
| PhpArray.SetLookup | includes/markup.php:534-540 | After an assignment the key reads the new value and every other key reads as before |
| PhpArray.SetUnique | includes/markup.php:534-540 | An assignment never makes a key appear twice |
| PhpArray.LookupNone | includes/markup.php:535 | A key reads as absent exactly when it is not among the array's keys |
| PhpArray.WithoutLookup | includes/markup.php:584-586 | After unsetting a set of keys those keys read as absent and every other key reads as before |
| PhpArray.WithoutKeys | includes/markup.php:584-586 | The keys left after unsetting are exactly the old keys outside the unset set |
| PhpArray.WithoutUnique | includes/markup.php:584-586 | Unsetting keys keeps the remaining keys unique |
| PhpArray.WithoutWithout | includes/markup.php:584-586 | Unsetting one key set and then another unsets their union |
| HookBus.InsertOrdered | includes/markup.php:459 | Registering a callback keeps the hook's chain in ascending priority order |
| HookBus.InsertAtEnd | includes/markup.php:459 | A registration whose priority is at least every existing one is placed after all of them |
| HookBus.WithoutPriorityInsert | includes/markup.php:511 | Removing every registration of a priority also removes one just added at that priority, leaving the rest of the chain as it was |
| HookBus.RemoveAllUndoesAdd | includes/markup.php:511 | Adding then removing all at a priority restores the chain when it held nothing at that priority; every other hook is untouched by both |
| MarkupAttributes.EscAttributes | includes/markup.php:372-411 | The loop's accumulated string is the serialisation of the whole array: each entry's piece, in array order |
| MarkupAttributes.FormatAppend | includes/markup.php:388-408 | Serialising two arrays joined is serialising each and joining the texts |
| MarkupAttributes.FormatEmptyIffAllNull | includes/markup.php:388-408 | The serialisation is empty if and only if every value is null, and otherwise starts with a space |
| MarkupAttributes.NullOmitted | includes/markup.php:389-391 | A null entry contributes nothing, wherever it stands |
| MarkupAttributes.BooleanRendersBareName | includes/markup.php:393-398 | A boolean value, false as well as true, renders as a space and the escaped name only |
| MarkupAttributes.StringRendersEscapedByName | includes/markup.php:380-405 | A string value renders as `name="value"`, the value escaped with esc_url for href/src/action, esc_js for onclick and esc_attr otherwise |
| MarkupAttributes.OrdinaryAttribute | includes/markup.php:400-405 | Any other attribute name has its value escaped with esc_attr |
| MarkupAttributes.AddAttributesCallback | includes/markup.php:533-542 | The closure's loop returns the array obtained by merging each added entry in turn |
| MarkupAttributes.AddedAttributesLookup | includes/markup.php:534-540 | Each added key holds the old and new values joined by a space when not overwriting and the old value is set, else the new value; every other key is untouched |
| MarkupAttributes.AddedAttributesKeepsOrder | includes/markup.php:534-540 | The keys already present stay at the front in their order; new keys only follow them |
| MarkupAttributes.AddedAttributesKeys | includes/markup.php:534-540 | The merged keys are the old keys in their order followed by the added keys that were new, in the added array's order |
| MarkupAttributes.AddedAttributesUnique | includes/markup.php:534-540 | Merging keeps keys unique |
| MarkupAttributes.RemovedIsWithout | includes/markup.php:584-586 | Unsetting the listed names one by one removes exactly those keys and keeps every other entry in its order |
| MarkupAttributes.RemoveAttributesCallback | includes/markup.php:579-588 | The closure returns the array unchanged when a truthy group is not open, and otherwise the array without the listed keys |
| MarkupAttributes.ScopedRemovalAsWrittenFails | includes/markup.php:580 | With a truthy group the closure as written ends in an error, while the intended test removes inside the open group and keeps outside it |
| MarkupAttributes.UnscopedRemovalAgrees | includes/markup.php:579-588 | With an empty group the closure as written and the corrected one return the same array |
| Markup.Registry.constructor | includes/markup.php:677-687 | The open-tag map starts empty |
| MarkupProperties.IsMarkupOpenAfterOpening | includes/markup.php:431-435 | After an opening, is_markup_open answers true for the id when its filtered tag was truthy or it was already open, and answers as before for every other id |
| MarkupProperties.IsMarkupOpenAfterClosing | includes/markup.php:431-435 | After a closing, is_markup_open answers false for the id and as before for every other id |
| Markup.Registry.GetAttributes | includes/markup.php:325-350 | The result is the filtered array, with data-markup-id set to the id when debugging, serialised |
| Markup.Registry.GetOpenMarkup | includes/markup.php:77-132 | Returns the text and leaves the map that OpenMarkup gives for the map before the call; afterwards is_markup_open holds for the id exactly when the filtered tag was truthy or the id was open, and is unchanged for every other id; keeps every recorded tag truthy |
| Markup.Registry.GetCloseMarkup | includes/markup.php:174-217 | Returns the text and leaves the map that CloseMarkup gives for the map before the call; afterwards is_markup_open is false for the id and unchanged for every other id |
| Markup.Registry.GetSelfcloseMarkup | includes/markup.php:263-308 | Returns SelfcloseMarkup's text and, having no modifies clause, never changes the map |
| Markup.Registry.PrintOpenMarkup | includes/markup.php:52-54 | The page is extended by exactly what get_open_markup returns, with the same map update |
| Markup.Registry.PrintCloseMarkup | includes/markup.php:151-153 | The page is extended by exactly what get_close_markup returns, with the same map update |
| Markup.Registry.PrintSelfcloseMarkup | includes/markup.php:238-240 | The page is extended by exactly what get_selfclose_markup returns |
| MarkupProperties.HookNamesDistinct | includes/markup.php:88-213 | The six hooks of one markup id have six different names |
| MarkupProperties.HookNameInjective | includes/markup.php:88 | At one hook point, different markup ids have different hook names |
| MarkupProperties.HookNamesCanCollide | includes/markup.php:88-98 | Across ids names can coincide: the tag filter of `x_before` is the before action of `x` |
| MarkupProperties.ChangeMarkupRetags | includes/markup.php:454-460 | A change registered at a priority no lower than the others makes the filtered tag the new tag |
| MarkupProperties.RemoveMarkupSuppresses | includes/markup.php:495-497 | After remove_markup at a priority no lower than every other tag filter on the id, the tag resolves to null (a filter at a higher priority runs later and can bring a tag back); then, for an id not open, opening prints nothing and records nothing, closing an unopened id prints nothing, the self-closing form prints nothing |
| MarkupProperties.RestoreMarkupUndoes | includes/markup.php:510-512 | When nothing else was registered on the tag filter at that priority, restore_markup at the priority of a change or removal gives back the tag resolved before it; otherwise it also drops the other registrations there (see RestoreMarkupDropsSharedPriority) |
| MarkupProperties.RestoreAttributesUndoes | includes/markup.php:605-607 | When nothing else was registered on the attribute filter at that priority, restore_attributes at the priority of an add or remove gives back the serialised attributes of before; otherwise it also drops the other registrations there, since it calls remove_all_filters at that priority |
| MarkupProperties.RestoreMarkupDropsSharedPriority | includes/markup.php:510-512 | restore_markup after a change removes every tag filter at that priority, another caller's included: the tag resolves through the original chain without that priority |
| MarkupProperties.RestoreMarkupLosesOtherChange | includes/markup.php:510-512 | A change by another caller at the same priority is lost: the tag resolved to that caller's tag before, and after the change and restore it resolves to the tag passed in |
| MarkupProperties.AddAttributesRunsLast | includes/markup.php:532-545 | A merge registered at a priority no lower than the others applies to what the earlier filters produced |
| MarkupProperties.AddBeforeActionPrintsLast | includes/markup.php:622-624 | An action added at a priority no lower than the others prints after them |
| MarkupProperties.OpenCloseKeepTagsTruthy | includes/markup.php:88-107 | Opening and closing keep every recorded tag truthy |
| MarkupProperties.OpenRecordsFilteredTag | includes/markup.php:88-107 | A falsy filtered tag prints nothing and changes nothing, for the self-closing form too; a truthy one is recorded under the id, replacing any earlier entry; closing removes the id; no other id's entry changes |
| MarkupProperties.CloseUnopened | includes/markup.php:183-185 | Closing an id that has no entry prints nothing and leaves the map as it was |
| MarkupProperties.OpenThenCloseSameTag | includes/markup.php:107-216 | An open prints exactly the before output, `<`, the escaped filtered tag, the attributes seen with the id recorded, `>` and the prepend output; the following close prints exactly the append output, `</`, the same escaped tag, `>` and the after output seen with the id removed, whatever the hooks are at close time; the id is then no longer open |
| MarkupProperties.ReopenOverwrites | includes/markup.php:107-206 | Opening an id twice keeps one slot holding the second filtered tag: the next close prints exactly the append output, that tag closed and the after output, and a further close prints nothing |
| MarkupProperties.FormatWithDebugAttribute | includes/markup.php:345-347 | Setting data-markup-id on an array lacking it appends one escaped `data-markup-id="id"` to the serialisation |
| MarkupProperties.DebugAppendsMarkupId | includes/markup.php:345-347 | When the attribute filters leave no data-markup-id, debugging on gives the attributes without debugging followed by the markup id attribute, added after the filters ran (a data-markup-id a filter set is overwritten in its place instead) |
| MarkupProperties.OpenUnfiltered | includes/markup.php:88-131 | With no tag or attribute filters, the opening text is the before output, `<`, the escaped tag, the attributes, `>`, then the prepend output printed with the id recorded |
| MarkupProperties.ScopeQueriesWhileOpening | includes/markup.php:98-122 | For an id not already open, an is_markup_open test of the id answers false in the before action and true in the prepend action |
| MarkupProperties.ScopeQueriesWhileClosing | includes/markup.php:198-213 | The same test answers true in the append action and false in the after action |
| MarkupProperties.ScopedFilterSeesOwnId | includes/markup.php:106-114 | A remove_attributes filter scoped to the id itself applies when the element is opened, because the id is recorded before the attributes are asked for, and does not apply to the self-closing form, which records nothing |
| MarkupProperties.OpeningChains | includes/markup.php:622-641 | add_before_action and add_prepend_action on an id with no hooks give chains holding just those callbacks |
| MarkupProperties.OpenWithOneAttribute | includes/markup.php:77-131 | With no hooks on the id, one ordinary attribute opens as `<tag name="value">`, every part escaped |
| MarkupProperties.OpenDebugWithOneAttribute | includes/markup.php:77-131 | The same with debugging on gains `data-markup-id="id"` after the attribute |
| MarkupProperties.OpenAfterOneAction | includes/markup.php:98-131 | A single printing action on the before hook puts its text ahead of the opening tag |
| MarkupProperties.AppendToPresentKey | includes/markup.php:532-545 | Adding to a key already set, without overwrite, keeps its place and joins the values with a space |
| MarkupProperties.MainScenario | includes/markup.php:77-131 | An example: opening `main` as a div with class site-main and no hooks prints `<div class="site-main">` (the theme's header opens `main` with tag `main`; the text has the same shape) |
| MarkupProperties.MainDebugScenario | includes/markup.php:345-347 | The same with debugging on prints `<div class="site-main" data-markup-id="main">` |
| MarkupProperties.BeforeActionScenario | includes/markup.php:98-131 | With an action printing X before `main`, the text is X followed by the element |
| MarkupProperties.AppendWithoutOverwriteScenario | includes/markup.php:532-545 | `a="1" b="2"` with `b="3"` added without overwrite renders as `a="1" b="2 3"` |
| NavMenu.FilterTruthy | includes/class-custom-nav-menu.php:80 | array_filter keeps only entries that are neither "" nor "0" and every value that is, keeps an all-truthy list whole and empties an all-falsy one |
| NavMenu.FilterTruthyAppend | includes/class-custom-nav-menu.php:80 | Filtering a concatenation is filtering each part and concatenating, so with the single-entry cases the kept entries keep their order and repetitions |
| NavMenu.ImplodeAppend | includes/class-custom-nav-menu.php:80 | Imploding two non-empty lists is imploding each and joining the results with the glue |
| NavMenu.BuildItemClass | includes/class-custom-nav-menu.php:73-91 | The `.=` steps produce ItemClass, whose content the item class lemmas state |
| NavMenu.BuildLinkAttributes | includes/class-custom-nav-menu.php:74-113 | The key-by-key assignments produce LinkAttributes, whose content the link lemmas state |
| NavMenu.CustomNavMenu.constructor | includes/class-custom-nav-menu.php:22 | The label field starts null |
| NavMenu.CustomNavMenu.StartLvl | includes/class-custom-nav-menu.php:33-43 | Appends the opening of `nav_menu` as a `ul` with class `menu sub-menu` and the current label, and updates the map accordingly |
| NavMenu.CustomNavMenu.EndLvl | includes/class-custom-nav-menu.php:54-56 | Appends the closing of `nav_menu` and updates the map accordingly |
| NavMenu.CustomNavMenu.StartEl | includes/class-custom-nav-menu.php:69-121 | The label becomes the item's link id when it has children and is kept otherwise; appends exactly the item's `li` opening, the anchor's opening, the escaped title and the anchor's closing |
| NavMenu.CustomNavMenu.EndEl | includes/class-custom-nav-menu.php:133-135 | Appends the closing of whatever `nav_menu_item` entry is recorded, if any |
| NavMenuProperties.LinkIdInjective | includes/class-custom-nav-menu.php:76 | Two link ids are equal only for the same item id and the same depth |
| NavMenuProperties.ItemClassMarkers | includes/class-custom-nav-menu.php:73-91 | The class starts with `menu__item`, ends with the active marker for a current, ancestor or parent item, ends with the dropdown marker for an inactive parent, and is exactly `menu__item` for a plain item |
| NavMenuProperties.ItemClassTrailingSpace | includes/class-custom-nav-menu.php:79-81 | A non-empty class list whose entries are all filtered out still adds a trailing space |
| NavMenuProperties.ItemClassCustomPrefix | includes/class-custom-nav-menu.php:79-81 | For any non-empty class list, the class begins with `menu__item`, one space and the truthy custom classes joined by single spaces in their order; only the dropdown and active markers can follow |
| NavMenuProperties.ItemClassCustom | includes/class-custom-nav-menu.php:79-81 | Two custom classes follow `menu__item` separated by single spaces |
| NavMenuProperties.LinkAttributesLookup | includes/class-custom-nav-menu.php:74-113 | href present iff the url is truthy (neither "" nor "0"); rel is the escaped XFN if it is truthy, else `noopener noreferrer` iff the target is `_blank`, else absent; title and target present iff truthy; aria-current is `page` iff current; class and id always set |
| NavMenuProperties.LinkAttributesUnique | includes/class-custom-nav-menu.php:74-113 | No link attribute appears twice |
| NavMenuProperties.LinkAttributesOrder | includes/class-custom-nav-menu.php:74-113 | The keys are class, id, then href, rel, title, target and aria-current in that order, each only when present |
| NavMenuProperties.SubMenuRendering | includes/class-custom-nav-menu.php:33-43 | The sub-menu renders `class="menu sub-menu"` and, only when the label is set, `aria-labelledby="label"` |
| NavMenuProperties.SubMenuLabelledByParentLink | includes/class-custom-nav-menu.php:83-85 | The sub-menu's aria-labelledby after a parent's start_el equals the id attribute of that parent's anchor |
| NavMenuProperties.StartElementOpenTags | includes/class-custom-nav-menu.php:117-120 | After start_el the anchor's id is not open; the item's id is open exactly when its tag survived the filters or it was open before, and holds the filtered tag; no other id changes |
| NavMenuProperties.StartElementUnhooked | includes/class-custom-nav-menu.php:117-120 | With no hooks on the item and anchor ids, start_el appends `<li attrs><a attrs>title</a>` with every part escaped |
| NavMenuProperties.ParentClosingTagLost | includes/class-custom-nav-menu.php:133-135 | For a parent with one child, the child's end_el closes the item's single slot, so the parent's end_el prints nothing |
| NavMenuProperties.CurrentPageItem | includes/class-custom-nav-menu.php:89-113 | The current item linking to `/about` has href set to the escaped url, aria-current `page`, and a class ending in the active marker |

## Left out

- The WordPress hook machinery (`add_filter`, `apply_filters`, `do_action`, `remove_all_filters`) is not part of the theme. It is modelled as an ordered list of registrations per hook name.
- Arbitrary callables are left out, so `change_markup_filter` (includes/markup.php:479-481) and `add_attributes_filter` (includes/markup.php:564-566) are not modelled. The callbacks are a closed set: the closures the helpers register, a fixed tag, null, and actions that print fixed text, possibly only while an id is open.
- A callback registered on a hook of the other kind (an action on a filter hook, say) is treated as doing nothing. Callbacks that register or remove hooks, or open and close markup themselves, are not modelled.
- The extra `...$args` the operations pass to their hooks are dropped. No modelled callback reads them. This includes the depth `start_lvl` and `end_lvl` pass, and the item, `has_children` and depth `start_el` passes.
- A tag filter that returns something other than a string or null is not modelled.
- Attribute values are null, booleans or strings. PHP integers, floats and arrays in attribute arrays are not modelled.
- The escapers are parameters. The model does not say what `esc_attr`, `esc_url`, `esc_js` or `esc_html` do to a string.
- Output buffering (`ob_start`/`ob_get_clean`) and `echo` are I/O. An action's output is its returned text, and the `open_markup`/`close_markup`/`selfclose_markup` wrappers append the returned text to a page string.
- The global `$_theme_opening_markup_tags` is a `Registry` object passed to the walker. The `isset` test on it is membership, because only truthy strings are ever stored.
- The add_before/prepend/append/after action helpers (includes/markup.php:622-675) register arbitrary callables. They are modelled only for the modelled callback kinds.
- Walker traversal (`Walker_Nav_Menu::walk`, `display_element`) is WordPress code. The walker's `hasChildren` field stands for the `has_children` property that traversal sets before each `start_el`, and the menu item's fields are inputs.
- `start_el` computes a `$classes` variable that it never uses (includes/class-custom-nav-menu.php:72). The model leaves it out.
- Three behaviours of the code that a reader might not expect are modelled as written:
  - A boolean `false` attribute renders as the bare name, just as `true` does.
  - `get_open_markup` and `get_selfclose_markup` call `get_attributes` without the extra arguments, so the attribute filter sees none.
  - The self-closing form escapes its tag with `esc_attr` like the others.
- The walker's `href`, `rel`, `title` and `target` values are escaped once when stored and again by `esc_attributes`. The model keeps both escapes, since nothing here fixes what escaping does.
- `Markup.AttributeFilterStep` applies the corrected scope test `ScopedRemoval` for a `remove_attributes` registration, and so does every `Get*Markup` operation through it. Where PHP throws an Error for a truthy group (see Findings), the registry model renders the element instead.
- WordPress drops a second registration of the same named callback at the same priority, such as `'__return_null'` from calling `remove_markup` twice. The ordered-list model keeps both copies. For `remove_markup` the filtered tag is null either way; a named action registered twice at one priority prints twice in the model and once in WordPress.
- The hook-name scheme is not injective across ids (`HookNamesCanCollide`). The model takes the names as the code builds them.

## Findings

| source | as written | input that shows it | evidently intended | confidence | as-written member | corrected member |
|---|---|---|---|---|---|---|
| includes/markup.php:580 | the `remove_attributes` closure tests `$this->is_open( $group )`, but it is declared inside a namespace-level function and has no `$this`, so any truthy group raises an Error (group `"0"` short-circuits the test) | `remove_attributes( 'main', array( 'class' ), 'header' )`, then rendering `main` | test `is_markup_open( $group )`, removing the names only while the group is open | high, not executed | MarkupAttributes.RemoveAttributesCallbackAsWritten | MarkupAttributes.RemoveAttributesCallback |
