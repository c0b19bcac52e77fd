/** The markup registry of includes/markup.php: every structural element is
    opened and closed under a markup id; the id names six hooks through
    which other code can rename the tag, rewrite the attributes or inject
    text around the element, and a process-wide map remembers the tag each
    open id was opened with, so that closing needs only the id. */
module Markup {
  import opened PhpValues
  import opened PhpArray
  import opened MarkupAttributes
  import opened HookBus

  /** THEME_SLUG, the prefix of every hook name. */
  const ThemeSlug: string := "theme_"

  /** The priority the helpers register at when none is given. */
  const DefaultPriority: int := 10

  /** The attribute the debug flag adds, naming the markup id. */
  const DebugAttribute: string := "data-markup-id"

  datatype HookPoint =
    | TagFilter         // filters the tag name
    | AttributesFilter  // filters the attribute array
    | BeforeAction      // echoed before the opening tag
    | PrependAction     // echoed just after the opening tag
    | AppendAction      // echoed just before the closing tag
    | AfterAction       // echoed after the closing tag

  function Suffix(p: HookPoint): string
  {
    match p
    case TagFilter => "_markup"
    case AttributesFilter => "_markup_attributes"
    case BeforeAction => "_before_markup"
    case PrependAction => "_prepend_markup"
    case AppendAction => "_append_markup"
    case AfterAction => "_after_markup"
  }

  /** The hook name for markup id `id` at point `p`, e.g. `theme_main_before_markup`. */
  function HookName(id: string, p: HookPoint): string
  {
    ThemeSlug + id + Suffix(p)
  }

  /** The callbacks the model knows: the closures the helpers below register,
      and two kinds of action a theme adds. */
  datatype Callback =
    | ReturnTag(tag: string)                             // change_markup's closure
    | ReturnNull                                         // __return_null, used by remove_markup
    | MergeAttributes(attributes: Attrs, overwrite: bool) // add_attributes's closure
    | UnsetAttributes(names: seq<string>, group: string) // remove_attributes's closure
    | Echo(text: string)                                 // an action that prints fixed text
    | EchoIfOpen(scope: string, text: string)            // prints only inside open markup `scope`

  type Hooks = Table<Callback>

  /** The map from markup id to the tag it was opened with. */
  type OpenTags = map<string, string>

  /** One tag-filter callback applied to the current tag; None is PHP null. */
  function TagFilterStep(c: Callback, tag: Option<string>): Option<string>
  {
    match c
    case ReturnTag(t) => Some(t)
    case ReturnNull => None
    case _ => tag
  }

  /** `apply_filters` on a tag hook: the chain applied in order. */
  function ApplyTagFilters(regs: seq<Registration<Callback>>, tag: Option<string>): Option<string>
  {
    if regs == [] then tag
    else TagFilterStep(regs[|regs| - 1].callback, ApplyTagFilters(regs[..|regs| - 1], tag))
  }

  /** One attribute-filter callback applied to the current array; the scope
      test of remove_attributes reads the open-tag map. */
  function AttributeFilterStep(c: Callback, attrs: Attrs, open: OpenTags): Attrs
  {
    match c
    case MergeAttributes(added, overwrite) => AddedAttributes(attrs, added, overwrite)
    case UnsetAttributes(names, group) => ScopedRemoval(attrs, names, group, open)
    case _ => attrs
  }

  /** `apply_filters` on an attribute hook. */
  function ApplyAttributeFilters(regs: seq<Registration<Callback>>, attrs: Attrs, open: OpenTags): Attrs
  {
    if regs == [] then attrs
    else AttributeFilterStep(regs[|regs| - 1].callback, ApplyAttributeFilters(regs[..|regs| - 1], attrs, open), open)
  }

  /** What one action callback prints. */
  function ActionOutput(c: Callback, open: OpenTags): string
  {
    match c
    case Echo(text) => text
    case EchoIfOpen(scope, text) => if scope in open then text else ""
    case _ => ""
  }

  /** The text `do_action` prints, as captured by the output buffer. */
  function DoAction(regs: seq<Registration<Callback>>, open: OpenTags): string
  {
    if regs == [] then ""
    else DoAction(regs[..|regs| - 1], open) + ActionOutput(regs[|regs| - 1].callback, open)
  }

  /** The tag after the `<id>_markup` filter. */
  function ResolveTag(h: Hooks, id: string, tag: string): Option<string>
  {
    ApplyTagFilters(Chain(h, HookName(id, TagFilter)), Some(tag))
  }

  /** `! $tag` fails: the filtered tag is a non-empty string other than "0". */
  predicate TruthyTag(t: Option<string>)
  {
    t.Some? && TruthyString(t.value)
  }

  /** Every recorded tag is truthy, as only truthy tags are ever recorded. */
  ghost predicate TagsTruthy(open: OpenTags)
  {
    forall id :: id in open ==> TruthyString(open[id])
  }

  /** `get_attributes`: filter, add the debug attribute when asked, serialise. */
  function Attributes(h: Hooks, esc: Escapers, debug: bool, open: OpenTags, id: string, attrs: Attrs): string
  {
    var filtered := ApplyAttributeFilters(Chain(h, HookName(id, AttributesFilter)), attrs, open);
    FormatAttributes(esc, if debug then Set(filtered, DebugAttribute, Str(id)) else filtered)
  }

  /** The text an operation returns and the open-tag map it leaves. */
  datatype Rendered = Rendered(text: string, open: OpenTags)

  /** `get_open_markup`. */
  function OpenMarkup(h: Hooks, esc: Escapers, debug: bool, open: OpenTags, id: string, tag: string, attrs: Attrs): Rendered
  {
    var t := ResolveTag(h, id, tag);
    if !TruthyTag(t) then Rendered("", open)
    else
      var before := DoAction(Chain(h, HookName(id, BeforeAction)), open);
      var withTag := open[id := t.value];
      var attributes := Attributes(h, esc, debug, withTag, id, attrs);
      var prepended := DoAction(Chain(h, HookName(id, PrependAction)), withTag);
      Rendered(before + "<" + esc.attr(t.value) + attributes + ">" + prepended, withTag)
  }

  /** `get_close_markup`. */
  function CloseMarkup(h: Hooks, esc: Escapers, open: OpenTags, id: string): Rendered
  {
    if id !in open then Rendered("", open)
    else
      var appended := DoAction(Chain(h, HookName(id, AppendAction)), open);
      var closed := open - {id};
      var after := DoAction(Chain(h, HookName(id, AfterAction)), closed);
      Rendered(appended + "</" + esc.attr(open[id]) + ">" + after, closed)
  }

  /** `get_selfclose_markup`. */
  function SelfcloseMarkup(h: Hooks, esc: Escapers, debug: bool, open: OpenTags, id: string, tag: string, attrs: Attrs): string
  {
    var t := ResolveTag(h, id, tag);
    if !TruthyTag(t) then ""
    else
      var before := DoAction(Chain(h, HookName(id, BeforeAction)), open);
      var attributes := Attributes(h, esc, debug, open, id, attrs);
      var after := DoAction(Chain(h, HookName(id, AfterAction)), open);
      before + "<" + esc.attr(t.value) + attributes + "/>" + after
  }

  /** The global `$_theme_opening_markup_tags` and the functions that use it. */
  class Registry {
    var open: OpenTags

    ghost predicate Valid()
      reads this
    {
      TagsTruthy(open)
    }

    /** The global starts as an empty array. */
    constructor ()
      ensures Valid() && open == map[]
    {
      open := map[];
    }

    /** `is_markup_open`. */
    function IsMarkupOpen(id: string): bool
      reads this
    {
      id in open
    }

    /** `get_attributes`; it only reads the map, through the scope tests. */
    method GetAttributes(h: Hooks, esc: Escapers, debug: bool, id: string, attributes: Attrs) returns (result: string)
      ensures result == Attributes(h, esc, debug, open, id, attributes)
    {
      var newAttributes := ApplyAttributeFilters(Chain(h, HookName(id, AttributesFilter)), attributes, open);
      if debug {
        newAttributes := Set(newAttributes, DebugAttribute, Str(id));
      }
      result := EscAttributes(esc, newAttributes);
    }

    method GetOpenMarkup(h: Hooks, esc: Escapers, debug: bool, id: string, tag: string, attributes: Attrs)
      returns (result: string)
      requires Valid()
      modifies this
      ensures Valid()
      ensures Rendered(result, open) == OpenMarkup(h, esc, debug, old(open), id, tag, attributes)
      ensures IsMarkupOpen(id) <==> TruthyTag(ResolveTag(h, id, tag)) || id in old(open)
      ensures forall other :: other != id ==> (IsMarkupOpen(other) <==> other in old(open))
    {
      var t := ResolveTag(h, id, tag);
      if !TruthyTag(t) {
        return "";
      }
      var beforeHook := DoAction(Chain(h, HookName(id, BeforeAction)), open);
      open := open[id := t.value];
      var escAttributes := GetAttributes(h, esc, debug, id, attributes);
      var prependedHook := DoAction(Chain(h, HookName(id, PrependAction)), open);
      var escTag := esc.attr(t.value);
      result := beforeHook + "<" + escTag + escAttributes + ">" + prependedHook;
    }

    method GetCloseMarkup(h: Hooks, esc: Escapers, id: string) returns (result: string)
      requires Valid()
      modifies this
      ensures Valid()
      ensures Rendered(result, open) == CloseMarkup(h, esc, old(open), id)
      ensures !IsMarkupOpen(id)
      ensures forall other :: other != id ==> (IsMarkupOpen(other) <==> other in old(open))
    {
      if id !in open {
        return "";
      }
      var escTag := esc.attr(open[id]);
      var appendedHook := DoAction(Chain(h, HookName(id, AppendAction)), open);
      open := open - {id};
      var afterHook := DoAction(Chain(h, HookName(id, AfterAction)), open);
      result := appendedHook + "</" + escTag + ">" + afterHook;
    }

    /** `get_selfclose_markup` never writes the map: it has no modifies clause. */
    method GetSelfcloseMarkup(h: Hooks, esc: Escapers, debug: bool, id: string, tag: string, attributes: Attrs)
      returns (result: string)
      ensures result == SelfcloseMarkup(h, esc, debug, open, id, tag, attributes)
    {
      var t := ResolveTag(h, id, tag);
      if !TruthyTag(t) {
        return "";
      }
      var beforeHook := DoAction(Chain(h, HookName(id, BeforeAction)), open);
      var escAttributes := GetAttributes(h, esc, debug, id, attributes);
      var afterHook := DoAction(Chain(h, HookName(id, AfterAction)), open);
      var escTag := esc.attr(t.value);
      result := beforeHook + "<" + escTag + escAttributes + "/>" + afterHook;
    }

    /** `open_markup`: echoes what `get_open_markup` returns. */
    method PrintOpenMarkup(page: string, h: Hooks, esc: Escapers, debug: bool, id: string, tag: string, attributes: Attrs)
      returns (page': string)
      requires Valid()
      modifies this
      ensures Valid()
      ensures page' == page + OpenMarkup(h, esc, debug, old(open), id, tag, attributes).text
      ensures open == OpenMarkup(h, esc, debug, old(open), id, tag, attributes).open
    {
      var text := GetOpenMarkup(h, esc, debug, id, tag, attributes);
      page' := page + text;
    }

    /** `close_markup`. */
    method PrintCloseMarkup(page: string, h: Hooks, esc: Escapers, id: string) returns (page': string)
      requires Valid()
      modifies this
      ensures Valid()
      ensures page' == page + CloseMarkup(h, esc, old(open), id).text
      ensures open == CloseMarkup(h, esc, old(open), id).open
    {
      var text := GetCloseMarkup(h, esc, id);
      page' := page + text;
    }

    /** `selfclose_markup`. */
    method PrintSelfcloseMarkup(page: string, h: Hooks, esc: Escapers, debug: bool, id: string, tag: string, attributes: Attrs)
      returns (page': string)
      ensures page' == page + SelfcloseMarkup(h, esc, debug, open, id, tag, attributes)
    {
      var text := GetSelfcloseMarkup(h, esc, debug, id, tag, attributes);
      page' := page + text;
    }
  }

  // The helpers that register closures on a markup id's hooks.

  function ChangeMarkup(h: Hooks, id: string, newTag: string, priority: int): Hooks
  {
    AddHook(h, HookName(id, TagFilter), ReturnTag(newTag), priority)
  }

  function RemoveMarkup(h: Hooks, id: string, priority: int): Hooks
  {
    AddHook(h, HookName(id, TagFilter), ReturnNull, priority)
  }

  function RestoreMarkup(h: Hooks, id: string, priority: int): Hooks
  {
    RemoveAllHooks(h, HookName(id, TagFilter), priority)
  }

  function AddAttributes(h: Hooks, id: string, attributes: Attrs, overwrite: bool, priority: int): Hooks
  {
    AddHook(h, HookName(id, AttributesFilter), MergeAttributes(attributes, overwrite), priority)
  }

  function RemoveAttributes(h: Hooks, id: string, names: seq<string>, group: string, priority: int): Hooks
  {
    AddHook(h, HookName(id, AttributesFilter), UnsetAttributes(names, group), priority)
  }

  function RestoreAttributes(h: Hooks, id: string, priority: int): Hooks
  {
    RemoveAllHooks(h, HookName(id, AttributesFilter), priority)
  }

  function AddBeforeAction(h: Hooks, id: string, callback: Callback, priority: int): Hooks
  {
    AddHook(h, HookName(id, BeforeAction), callback, priority)
  }

  function AddPrependAction(h: Hooks, id: string, callback: Callback, priority: int): Hooks
  {
    AddHook(h, HookName(id, PrependAction), callback, priority)
  }

  function AddAppendAction(h: Hooks, id: string, callback: Callback, priority: int): Hooks
  {
    AddHook(h, HookName(id, AppendAction), callback, priority)
  }

  function AddAfterAction(h: Hooks, id: string, callback: Callback, priority: int): Hooks
  {
    AddHook(h, HookName(id, AfterAction), callback, priority)
  }
}
