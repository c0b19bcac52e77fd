/** What the markup registry promises: the hook naming scheme, the order in
    which registrations take effect, the pairing of opens and closes through
    the open-tag map, scope queries from inside hooks, and example
    scenarios. */
module MarkupProperties {
  import opened PhpValues
  import opened PhpArray
  import opened MarkupAttributes
  import opened HookBus
  import opened Markup

  // ---- Hook names ----

  lemma SuffixesDistinct(p: HookPoint, q: HookPoint)
    requires p != q
    ensures Suffix(p) != Suffix(q)
  {
  }

  /** The six hooks of one markup id are six different hooks. */
  lemma HookNamesDistinct(id: string, p: HookPoint, q: HookPoint)
    requires p != q
    ensures HookName(id, p) != HookName(id, q)
  {
    SuffixesDistinct(p, q);
    var n := |ThemeSlug + id|;
    assert HookName(id, p)[n..] == Suffix(p);
    assert HookName(id, q)[n..] == Suffix(q);
  }

  /** At one hook point, different markup ids use different hooks. */
  lemma HookNameInjective(id1: string, id2: string, p: HookPoint)
    requires HookName(id1, p) == HookName(id2, p)
    ensures id1 == id2
  {
    var n := |ThemeSlug|;
    assert |id1| == |id2|;
    assert HookName(id1, p)[n..n + |id1|] == id1;
    assert HookName(id2, p)[n..n + |id2|] == id2;
  }

  /** Across ids the scheme is not injective: the tag filter of `x_before`
      is the before action of `x`. */
  lemma HookNamesCanCollide()
    ensures HookName("x_before", TagFilter) == HookName("x", BeforeAction)
  {
  }

  // ---- Running the chains ----

  lemma {:induction false} TagFiltersSnoc(regs: seq<Registration<Callback>>, r: Registration<Callback>, tag: Option<string>)
    ensures ApplyTagFilters(regs + [r], tag) == TagFilterStep(r.callback, ApplyTagFilters(regs, tag))
  {
    assert (regs + [r])[..|regs|] == regs;
  }

  lemma {:induction false} AttributeFiltersSnoc(regs: seq<Registration<Callback>>, r: Registration<Callback>, attrs: Attrs, open: OpenTags)
    ensures ApplyAttributeFilters(regs + [r], attrs, open)
         == AttributeFilterStep(r.callback, ApplyAttributeFilters(regs, attrs, open), open)
  {
    assert (regs + [r])[..|regs|] == regs;
  }

  /** `do_action` prints the output of its callbacks one after the other. */
  lemma {:induction false} DoActionAppend(a: seq<Registration<Callback>>, b: seq<Registration<Callback>>, open: OpenTags)
    ensures DoAction(a + b, open) == DoAction(a, open) + DoAction(b, open)
    decreases |b|
  {
    if b == [] {
      assert a + b == a;
    } else {
      var b' := b[..|b| - 1];
      assert (a + b)[..|a + b| - 1] == a + b';
      assert (a + b)[|a + b| - 1] == b[|b| - 1];
      DoActionAppend(a, b', open);
    }
  }

  /** A tag filter registered at a priority no lower than any other on the
      hook runs last, so its result is the tag. */
  lemma ChangeMarkupRetags(h: Hooks, id: string, newTag: string, priority: int, tag: string)
    requires AllAtMost(Chain(h, HookName(id, TagFilter)), priority)
    ensures ResolveTag(ChangeMarkup(h, id, newTag, priority), id, tag) == Some(newTag)
  {
    var regs, r := Chain(h, HookName(id, TagFilter)), Registration(priority, ReturnTag(newTag));
    InsertAtEnd(regs, r);
    TagFiltersSnoc(regs, r, Some(tag));
  }

  /** Removing the markup, then opening and closing it, prints nothing and
      never records the id; the self-closing form prints nothing either. */
  lemma RemoveMarkupSuppresses(h: Hooks, esc: Escapers, debug: bool, open: OpenTags, id: string, tag: string,
                               attrs: Attrs, priority: int)
    requires AllAtMost(Chain(h, HookName(id, TagFilter)), priority)
    requires id !in open
    ensures ResolveTag(RemoveMarkup(h, id, priority), id, tag) == None
    ensures OpenMarkup(RemoveMarkup(h, id, priority), esc, debug, open, id, tag, attrs) == Rendered("", open)
    ensures CloseMarkup(RemoveMarkup(h, id, priority), esc, open, id) == Rendered("", open)
    ensures SelfcloseMarkup(RemoveMarkup(h, id, priority), esc, debug, open, id, tag, attrs) == ""
  {
    var regs, r := Chain(h, HookName(id, TagFilter)), Registration(priority, ReturnNull);
    InsertAtEnd(regs, r);
    TagFiltersSnoc(regs, r, Some(tag));
  }

  /** Restoring at a priority undoes a change or a removal made at that
      priority when nothing else was registered there. */
  lemma RestoreMarkupUndoes(h: Hooks, id: string, newTag: string, priority: int, tag: string)
    requires forall i :: 0 <= i < |Chain(h, HookName(id, TagFilter))| ==> Chain(h, HookName(id, TagFilter))[i].priority != priority
    ensures ResolveTag(RestoreMarkup(ChangeMarkup(h, id, newTag, priority), id, priority), id, tag) == ResolveTag(h, id, tag)
    ensures ResolveTag(RestoreMarkup(RemoveMarkup(h, id, priority), id, priority), id, tag) == ResolveTag(h, id, tag)
  {
    RemoveAllUndoesAdd(h, HookName(id, TagFilter), ReturnTag(newTag), priority, "");
    RemoveAllUndoesAdd(h, HookName(id, TagFilter), ReturnNull, priority, "");
  }

  /** restore_markup removes every tag filter at its priority, so a filter
      another caller registered at that priority goes too: what resolves
      afterwards is the chain without that priority. */
  lemma RestoreMarkupDropsSharedPriority(h: Hooks, id: string, newTag: string, priority: int, tag: string)
    ensures ResolveTag(RestoreMarkup(ChangeMarkup(h, id, newTag, priority), id, priority), id, tag)
         == ApplyTagFilters(WithoutPriority(Chain(h, HookName(id, TagFilter)), priority), Some(tag))
  {
    WithoutPriorityInsert(Chain(h, HookName(id, TagFilter)), priority, ReturnTag(newTag));
  }

  /** An instance: another caller's change at the same priority is lost, and
      the tag falls back to the one passed in. */
  lemma RestoreMarkupLosesOtherChange(h: Hooks, id: string, newTag: string, priority: int, tag: string, other: string)
    requires Chain(h, HookName(id, TagFilter)) == [Registration(priority, ReturnTag(other))]
    ensures ResolveTag(h, id, tag) == Some(other)
    ensures ResolveTag(RestoreMarkup(ChangeMarkup(h, id, newTag, priority), id, priority), id, tag) == Some(tag)
  {
    var regs := Chain(h, HookName(id, TagFilter));
    assert regs[..0] == [];
    RestoreMarkupDropsSharedPriority(h, id, newTag, priority, tag);
    assert WithoutPriority(regs, priority) == [] by {
      assert regs[1..] == [];
    }
  }

  /** The same for the attribute helpers. */
  lemma RestoreAttributesUndoes(h: Hooks, esc: Escapers, debug: bool, open: OpenTags, id: string, attrs: Attrs,
                                added: Attrs, overwrite: bool, names: seq<string>, group: string, priority: int)
    requires forall i :: 0 <= i < |Chain(h, HookName(id, AttributesFilter))| ==> Chain(h, HookName(id, AttributesFilter))[i].priority != priority
    ensures Attributes(RestoreAttributes(AddAttributes(h, id, added, overwrite, priority), id, priority), esc, debug, open, id, attrs)
         == Attributes(h, esc, debug, open, id, attrs)
    ensures Attributes(RestoreAttributes(RemoveAttributes(h, id, names, group, priority), id, priority), esc, debug, open, id, attrs)
         == Attributes(h, esc, debug, open, id, attrs)
  {
    RemoveAllUndoesAdd(h, HookName(id, AttributesFilter), MergeAttributes(added, overwrite), priority, "");
    RemoveAllUndoesAdd(h, HookName(id, AttributesFilter), UnsetAttributes(names, group), priority, "");
  }

  /** An attribute filter added at a priority no lower than the others sees
      what every earlier filter produced. */
  lemma AddAttributesRunsLast(h: Hooks, open: OpenTags, id: string, attrs: Attrs, added: Attrs, overwrite: bool, priority: int)
    requires AllAtMost(Chain(h, HookName(id, AttributesFilter)), priority)
    ensures ApplyAttributeFilters(Chain(AddAttributes(h, id, added, overwrite, priority), HookName(id, AttributesFilter)), attrs, open)
         == AddedAttributes(ApplyAttributeFilters(Chain(h, HookName(id, AttributesFilter)), attrs, open), added, overwrite)
  {
    var regs, r := Chain(h, HookName(id, AttributesFilter)), Registration(priority, MergeAttributes(added, overwrite));
    InsertAtEnd(regs, r);
    AttributeFiltersSnoc(regs, r, attrs, open);
  }

  /** Actions registered later at the same or a higher priority print after
      the ones already there. */
  lemma AddBeforeActionPrintsLast(h: Hooks, open: OpenTags, id: string, callback: Callback, priority: int)
    requires AllAtMost(Chain(h, HookName(id, BeforeAction)), priority)
    ensures DoAction(Chain(AddBeforeAction(h, id, callback, priority), HookName(id, BeforeAction)), open)
         == DoAction(Chain(h, HookName(id, BeforeAction)), open) + ActionOutput(callback, open)
  {
    var regs, r := Chain(h, HookName(id, BeforeAction)), Registration(priority, callback);
    InsertAtEnd(regs, r);
    DoActionAppend(regs, [r], open);
    assert DoAction([r], open) == ActionOutput(callback, open) by {
      assert [r][..0] == [];
    }
  }

  // ---- Opening and closing ----

  /** Opening records only truthy tags, and closing only removes. */
  lemma OpenCloseKeepTagsTruthy(h: Hooks, esc: Escapers, debug: bool, open: OpenTags, id: string, tag: string, attrs: Attrs)
    requires TagsTruthy(open)
    ensures TagsTruthy(OpenMarkup(h, esc, debug, open, id, tag, attrs).open)
    ensures TagsTruthy(CloseMarkup(h, esc, open, id).open)
  {
  }

  /** A falsy filtered tag suppresses the element and records nothing; a
      truthy one is recorded under the id, replacing any earlier entry, and
      every other id reads as before. Closing removes only the id. */
  lemma OpenRecordsFilteredTag(h: Hooks, esc: Escapers, debug: bool, open: OpenTags, id: string, tag: string,
                               attrs: Attrs, other: string)
    ensures var t := ResolveTag(h, id, tag);
            var o := OpenMarkup(h, esc, debug, open, id, tag, attrs);
            && (!TruthyTag(t) ==> o == Rendered("", open) && SelfcloseMarkup(h, esc, debug, open, id, tag, attrs) == "")
            && (TruthyTag(t) ==> id in o.open && o.open[id] == t.value)
            && (other != id ==> (other in o.open <==> other in open) && (other in open ==> o.open[other] == open[other]))
    ensures var c := CloseMarkup(h, esc, open, id);
            && id !in c.open
            && (other != id ==> (other in c.open <==> other in open) && (other in open ==> c.open[other] == open[other]))
  {
  }

  /** `is_markup_open` on a registry left by an opening: the id answers true
      when its filtered tag was truthy or it was already open, and every
      other id answers as before the opening. */
  lemma IsMarkupOpenAfterOpening(r: Registry, h: Hooks, esc: Escapers, debug: bool, before: OpenTags,
                                 id: string, tag: string, attrs: Attrs, other: string)
    requires r.open == OpenMarkup(h, esc, debug, before, id, tag, attrs).open
    ensures r.IsMarkupOpen(id) <==> TruthyTag(ResolveTag(h, id, tag)) || id in before
    ensures other != id ==> (r.IsMarkupOpen(other) <==> other in before)
  {
  }

  /** `is_markup_open` on a registry left by a closing: the id answers false
      and every other id answers as before the closing. */
  lemma IsMarkupOpenAfterClosing(r: Registry, h: Hooks, esc: Escapers, before: OpenTags, id: string, other: string)
    requires r.open == CloseMarkup(h, esc, before, id).open
    ensures !r.IsMarkupOpen(id)
    ensures other != id ==> (r.IsMarkupOpen(other) <==> other in before)
  {
  }

  /** Closing an id that is not open prints nothing and changes nothing. */
  lemma CloseUnopened(h: Hooks, esc: Escapers, open: OpenTags, id: string)
    requires id !in open
    ensures CloseMarkup(h, esc, open, id) == Rendered("", open)
  {
  }

  /** An open followed by a close of the same id: the open prints the before
      output, the escaped filtered tag with the attributes, and the prepend
      output; the close prints the append output, the same escaped tag
      closed, and the after output, whatever the hooks are at close time.
      The id is no longer open afterwards. */
  lemma OpenThenCloseSameTag(h: Hooks, h': Hooks, esc: Escapers, debug: bool, open: OpenTags, id: string, tag: string, attrs: Attrs)
    requires TruthyTag(ResolveTag(h, id, tag))
    ensures var tg := ResolveTag(h, id, tag).value;
            var withTag := open[id := tg];
            var o := OpenMarkup(h, esc, debug, open, id, tag, attrs);
            var c := CloseMarkup(h', esc, o.open, id);
            && o.text == DoAction(Chain(h, HookName(id, BeforeAction)), open) + "<" + esc.attr(tg)
                         + Attributes(h, esc, debug, withTag, id, attrs) + ">"
                         + DoAction(Chain(h, HookName(id, PrependAction)), withTag)
            && c.text == DoAction(Chain(h', HookName(id, AppendAction)), withTag) + "</" + esc.attr(tg) + ">"
                         + DoAction(Chain(h', HookName(id, AfterAction)), open - {id})
            && c.open == open - {id}
  {
    var tg := ResolveTag(h, id, tag).value;
    assert open[id := tg] - {id} == open - {id};
  }

  /** The map holds one slot per id: opening an id again overwrites its tag,
      so the next close prints the later tag and a second close prints
      nothing. */
  lemma ReopenOverwrites(h1: Hooks, h2: Hooks, h': Hooks, esc: Escapers, debug: bool, open: OpenTags, id: string,
                         tag1: string, tag2: string, attrs1: Attrs, attrs2: Attrs)
    requires TruthyTag(ResolveTag(h1, id, tag1)) && TruthyTag(ResolveTag(h2, id, tag2))
    ensures var tg2 := ResolveTag(h2, id, tag2).value;
            var o1 := OpenMarkup(h1, esc, debug, open, id, tag1, attrs1);
            var o2 := OpenMarkup(h2, esc, debug, o1.open, id, tag2, attrs2);
            var c1 := CloseMarkup(h', esc, o2.open, id);
            && o2.open == open[id := tg2]
            && c1.text == DoAction(Chain(h', HookName(id, AppendAction)), open[id := tg2]) + "</" + esc.attr(tg2) + ">"
                          + DoAction(Chain(h', HookName(id, AfterAction)), open - {id})
            && c1.open == open - {id}
            && CloseMarkup(h', esc, c1.open, id) == Rendered("", c1.open)
  {
    var tg1, tg2 := ResolveTag(h1, id, tag1).value, ResolveTag(h2, id, tag2).value;
    assert open[id := tg1][id := tg2] == open[id := tg2];
    assert open[id := tg2] - {id} == open - {id};
  }

  /** Adding the debug attribute to an array that lacks it appends one
      `data-markup-id` attribute to the serialised text. */
  lemma FormatWithDebugAttribute(esc: Escapers, filtered: Attrs, id: string)
    requires DebugAttribute !in Keys(filtered)
    ensures FormatAttributes(esc, Set(filtered, DebugAttribute, Str(id)))
         == FormatAttributes(esc, filtered) + (" " + esc.attr(DebugAttribute) + "=\"" + esc.attr(id) + "\"")
  {
    var extra := [(DebugAttribute, Str(id))];
    assert Set(filtered, DebugAttribute, Str(id)) == filtered + extra;
    FormatAppend(esc, filtered, extra);
    OrdinaryAttribute(esc, DebugAttribute, id);
  }

  /** With the debug flag on, the markup id is appended as one more escaped
      attribute after the filtered ones; nothing else changes. */
  lemma DebugAppendsMarkupId(h: Hooks, esc: Escapers, open: OpenTags, id: string, attrs: Attrs)
    requires DebugAttribute !in Keys(ApplyAttributeFilters(Chain(h, HookName(id, AttributesFilter)), attrs, open))
    ensures Attributes(h, esc, true, open, id, attrs)
         == Attributes(h, esc, false, open, id, attrs) + (" " + esc.attr(DebugAttribute) + "=\"" + esc.attr(id) + "\"")
  {
    FormatWithDebugAttribute(esc, ApplyAttributeFilters(Chain(h, HookName(id, AttributesFilter)), attrs, open), id);
  }

  // Helpers for hook tables with few registrations.

  lemma FirstRegistration(h: Hooks, name: string, c: Callback, priority: int, open: OpenTags)
    requires Chain(h, name) == []
    ensures Chain(AddHook(h, name, c, priority), name) == [Registration(priority, c)]
    ensures DoAction([Registration(priority, c)], open) == ActionOutput(c, open)
  {
    var r := Registration(priority, c);
    assert Insert([], r) == [r];
    assert [r][..0] == [];
  }

  lemma OpenUnfiltered(h: Hooks, esc: Escapers, debug: bool, open: OpenTags, id: string, tag: string, attrs: Attrs)
    requires Chain(h, HookName(id, TagFilter)) == [] && Chain(h, HookName(id, AttributesFilter)) == []
    requires TruthyString(tag)
    ensures OpenMarkup(h, esc, debug, open, id, tag, attrs).text
         == DoAction(Chain(h, HookName(id, BeforeAction)), open) + "<" + esc.attr(tag)
            + FormatAttributes(esc, if debug then Set(attrs, DebugAttribute, Str(id)) else attrs) + ">"
            + DoAction(Chain(h, HookName(id, PrependAction)), open[id := tag])
  {
  }

  /** `is_markup_open` asked from a hook of the same id while opening it:
      false in the before action, true in the prepend action. */
  lemma ScopeQueriesWhileOpening(h: Hooks, esc: Escapers, open: OpenTags, id: string, tag: string, x: string, y: string, p: int, q: int)
    requires Chain(h, HookName(id, TagFilter)) == [] && Chain(h, HookName(id, AttributesFilter)) == []
    requires Chain(h, HookName(id, BeforeAction)) == [Registration(p, EchoIfOpen(id, x))]
    requires Chain(h, HookName(id, PrependAction)) == [Registration(q, EchoIfOpen(id, y))]
    requires TruthyString(tag) && id !in open
    ensures OpenMarkup(h, esc, false, open, id, tag, []).text == "<" + esc.attr(tag) + ">" + y
  {
    FirstRegistration(map[], "", EchoIfOpen(id, x), p, open);
    FirstRegistration(map[], "", EchoIfOpen(id, y), q, open[id := tag]);
    OpenWithoutAttributes(h, esc, open, id, tag);
  }

  /** With no tag or attribute filters and no attributes, the opening text is
      the before output, the bare tag and the prepend output. */
  lemma OpenWithoutAttributes(h: Hooks, esc: Escapers, open: OpenTags, id: string, tag: string)
    requires Chain(h, HookName(id, TagFilter)) == [] && Chain(h, HookName(id, AttributesFilter)) == []
    requires TruthyString(tag)
    ensures OpenMarkup(h, esc, false, open, id, tag, []).text
         == DoAction(Chain(h, HookName(id, BeforeAction)), open) + "<" + esc.attr(tag) + ">"
            + DoAction(Chain(h, HookName(id, PrependAction)), open[id := tag])
  {
    assert FormatAttributes(esc, []) == "";
    OpenUnfiltered(h, esc, false, open, id, tag, []);
  }

  /** And while closing it: true in the append action, false in the after
      action. */
  lemma ScopeQueriesWhileClosing(h: Hooks, esc: Escapers, open: OpenTags, id: string, tag: string, x: string, y: string, p: int, q: int)
    requires Chain(h, HookName(id, AppendAction)) == [Registration(p, EchoIfOpen(id, x))]
    requires Chain(h, HookName(id, AfterAction)) == [Registration(q, EchoIfOpen(id, y))]
    ensures CloseMarkup(h, esc, open[id := tag], id).text == x + "</" + esc.attr(tag) + ">"
  {
    FirstRegistration(map[], "", EchoIfOpen(id, x), p, open[id := tag]);
    FirstRegistration(map[], "", EchoIfOpen(id, y), q, open[id := tag] - {id});
  }

  /** And from the attribute filter: the opening records the id before it
      asks for the attributes, so a removal scoped to the id itself applies
      when the element is opened; the self-closing form records nothing, so
      the same removal does not apply there. */
  lemma ScopedFilterSeesOwnId(h: Hooks, esc: Escapers, open: OpenTags, id: string, tag: string,
                              attrs: Attrs, names: seq<string>, p: int)
    requires Chain(h, HookName(id, AttributesFilter)) == [Registration(p, UnsetAttributes(names, id))]
    requires TruthyString(id) && id !in open
    ensures Attributes(h, esc, false, open[id := tag], id, attrs) == FormatAttributes(esc, RemovedAttributes(attrs, names))
    ensures Attributes(h, esc, false, open, id, attrs) == FormatAttributes(esc, attrs)
  {
    var regs := Chain(h, HookName(id, AttributesFilter));
    assert regs[..0] == [];
    assert ApplyAttributeFilters(regs, attrs, open[id := tag]) == ScopedRemoval(attrs, names, id, open[id := tag]);
    assert ApplyAttributeFilters(regs, attrs, open) == ScopedRemoval(attrs, names, id, open);
  }

  /** Such tables exist: registering the two actions on a table holding
      nothing for `id` gives them. */
  lemma OpeningChains(h: Hooks, id: string, before: Callback, prepend: Callback, p: int, q: int)
    requires forall r: HookPoint :: Chain(h, HookName(id, r)) == []
    ensures var h' := AddPrependAction(AddBeforeAction(h, id, before, p), id, prepend, q);
            && Chain(h', HookName(id, TagFilter)) == []
            && Chain(h', HookName(id, AttributesFilter)) == []
            && Chain(h', HookName(id, BeforeAction)) == [Registration(p, before)]
            && Chain(h', HookName(id, PrependAction)) == [Registration(q, prepend)]
  {
    var h1 := AddBeforeAction(h, id, before, p);
    HookNamesDistinct(id, BeforeAction, PrependAction);
    HookNamesDistinct(id, BeforeAction, TagFilter);
    HookNamesDistinct(id, PrependAction, TagFilter);
    HookNamesDistinct(id, BeforeAction, AttributesFilter);
    HookNamesDistinct(id, PrependAction, AttributesFilter);
    assert Chain(h, HookName(id, BeforeAction)) == [];
    FirstRegistration(h, HookName(id, BeforeAction), before, p, map[]);
    assert Chain(h1, HookName(id, PrependAction)) == [];
    FirstRegistration(h1, HookName(id, PrependAction), prepend, q, map[]);
  }

  // ---- Example scenarios ----

  /** Opening an element with one ordinary string attribute when the tag,
      attribute, before and prepend hooks of its id hold nothing. */
  lemma OpenWithOneAttribute(h: Hooks, esc: Escapers, open: OpenTags, id: string, tag: string, name: string, value: string)
    requires Chain(h, HookName(id, TagFilter)) == [] && Chain(h, HookName(id, AttributesFilter)) == []
    requires Chain(h, HookName(id, BeforeAction)) == [] && Chain(h, HookName(id, PrependAction)) == []
    requires TruthyString(tag)
    requires name != "href" && name != "src" && name != "action" && name != "onclick"
    ensures OpenMarkup(h, esc, false, open, id, tag, [(name, Str(value))]).text
         == "<" + esc.attr(tag) + (" " + esc.attr(name) + "=\"" + esc.attr(value) + "\"") + ">"
  {
    OrdinaryAttribute(esc, name, value);
    OpenUnfiltered(h, esc, false, open, id, tag, [(name, Str(value))]);
  }

  /** The same with the debug flag on. */
  lemma OpenDebugWithOneAttribute(h: Hooks, esc: Escapers, open: OpenTags, id: string, tag: string, name: string, value: string)
    requires Chain(h, HookName(id, TagFilter)) == [] && Chain(h, HookName(id, AttributesFilter)) == []
    requires Chain(h, HookName(id, BeforeAction)) == [] && Chain(h, HookName(id, PrependAction)) == []
    requires TruthyString(tag)
    requires name != "href" && name != "src" && name != "action" && name != "onclick" && name != DebugAttribute
    ensures OpenMarkup(h, esc, true, open, id, tag, [(name, Str(value))]).text
         == "<" + esc.attr(tag) + (" " + esc.attr(name) + "=\"" + esc.attr(value) + "\"")
            + (" " + esc.attr(DebugAttribute) + "=\"" + esc.attr(id) + "\"") + ">"
  {
    var a := [(name, Str(value))];
    var x := " " + esc.attr(name) + "=\"" + esc.attr(value) + "\"";
    var y := " " + esc.attr(DebugAttribute) + "=\"" + esc.attr(id) + "\"";
    OrdinaryAttribute(esc, name, value);
    assert Keys(a) == [name];
    FormatWithDebugAttribute(esc, a, id);
    OpenUnfiltered(h, esc, true, open, id, tag, a);
    assert DoAction(Chain(h, HookName(id, BeforeAction)), open) == "";
    assert DoAction(Chain(h, HookName(id, PrependAction)), open[id := tag]) == "";
    Reassociate(esc.attr(tag), x, y);
  }

  /** One action on the before hook puts its text ahead of the element. */
  lemma OpenAfterOneAction(h: Hooks, esc: Escapers, open: OpenTags, id: string, tag: string, attrs: Attrs, x: string, p: int)
    requires Chain(h, HookName(id, TagFilter)) == [] && Chain(h, HookName(id, AttributesFilter)) == []
    requires Chain(h, HookName(id, BeforeAction)) == [Registration(p, Echo(x))]
    requires Chain(h, HookName(id, PrependAction)) == []
    requires TruthyString(tag)
    ensures OpenMarkup(h, esc, false, open, id, tag, attrs).text
         == x + "<" + esc.attr(tag) + FormatAttributes(esc, attrs) + ">"
  {
    FirstRegistration(map[], "", Echo(x), p, open);
    OpenUnfiltered(h, esc, false, open, id, tag, attrs);
  }

  /** Regrouping the concatenation an opening tag is built from. */
  lemma Reassociate(t: string, x: string, y: string)
    ensures "" + "<" + t + (x + y) + ">" + "" == "<" + t + x + y + ">"
  {
  }

  /** Appending a value to a key already present, without overwrite, keeps
      the key in its place and joins the two values with a space. */
  lemma AppendToPresentKey(h: Hooks, esc: Escapers, open: OpenTags, id: string, n1: string, v1: string, n2: string, v2: string, v3: string)
    requires Chain(h, HookName(id, AttributesFilter)) == []
    requires n1 != n2
    ensures Attributes(AddAttributes(h, id, [(n2, Str(v3))], false, DefaultPriority), esc, false, open, id,
                       [(n1, Str(v1)), (n2, Str(v2))])
         == FormatAttributes(esc, [(n1, Str(v1))]) + FormatAttributes(esc, [(n2, Str(v2 + " " + v3))])
  {
    var base := [(n1, Str(v1)), (n2, Str(v2))];
    var added := [(n2, Str(v3))];
    AddAttributesRunsLast(h, open, id, base, added, false, DefaultPriority);
    var filtered := AddedAttributes(base, added, false);
    var joined := Str(v2 + " " + v3);
    assert filtered == [(n1, Str(v1)), (n2, joined)] by {
      assert added[..0] == [];
      assert AddedAttributes(base, added, false) == AddAttribute(base, n2, Str(v3), false);
      assert base[1..] == [(n2, Str(v2))];
      assert Lookup(base, n2) == Some(Str(v2));
      assert AddedValue(base, n2, Str(v3), false) == joined;
      assert Set(base[1..], n2, joined) == [(n2, joined)] + base[1..][1..];
      assert base[1..][1..] == [];
      assert Set(base, n2, joined) == [base[0]] + Set(base[1..], n2, joined);
    }
    FormatAppend(esc, [(n1, Str(v1))], [(n2, Str(v2 + " " + v3))]);
    assert [(n1, Str(v1))] + [(n2, Str(v2 + " " + v3))] == filtered;
  }

  // The literal texts of the scenarios, kept apart so that the scenario
  // proofs need not unfold them.

  lemma ClassText()
    ensures " " + "class" + "=\"" + "site-main" + "\"" == " class=\"site-main\""
  {
  }

  lemma DebugText()
    ensures " " + "data-markup-id" + "=\"" + "main" + "\"" == " data-markup-id=\"main\""
  {
  }

  lemma AppendText()
    ensures " " + "a" + "=\"" + "1" + "\"" == " a=\"1\""
    ensures " " + "b" + "=\"" + "2 3" + "\"" == " b=\"2 3\""
    ensures "2" + " " + "3" == "2 3"
  {
  }

  /** Opening `main` as a `div` with class `site-main` when no hook of `main`
      holds anything. The escapers need only leave these plain words alone. */
  lemma MainScenario(h: Hooks, esc: Escapers, open: OpenTags)
    requires Chain(h, HookName("main", TagFilter)) == [] && Chain(h, HookName("main", AttributesFilter)) == []
    requires Chain(h, HookName("main", BeforeAction)) == [] && Chain(h, HookName("main", PrependAction)) == []
    requires esc.attr("div") == "div" && esc.attr("class") == "class" && esc.attr("site-main") == "site-main"
    ensures OpenMarkup(h, esc, false, open, "main", "div", [("class", Str("site-main"))]).text
         == "<div" + " class=\"site-main\"" + ">"
  {
    OpenWithOneAttribute(h, esc, open, "main", "div", "class", "site-main");
    ClassText();
  }

  /** The same call with the debug flag on. */
  lemma MainDebugScenario(h: Hooks, esc: Escapers, open: OpenTags)
    requires Chain(h, HookName("main", TagFilter)) == [] && Chain(h, HookName("main", AttributesFilter)) == []
    requires Chain(h, HookName("main", BeforeAction)) == [] && Chain(h, HookName("main", PrependAction)) == []
    requires esc.attr("div") == "div" && esc.attr("class") == "class" && esc.attr("site-main") == "site-main"
    requires esc.attr(DebugAttribute) == DebugAttribute && esc.attr("main") == "main"
    ensures OpenMarkup(h, esc, true, open, "main", "div", [("class", Str("site-main"))]).text
         == "<div" + " class=\"site-main\"" + " data-markup-id=\"main\"" + ">"
  {
    OpenDebugWithOneAttribute(h, esc, open, "main", "div", "class", "site-main");
    assert DebugAttribute == "data-markup-id";
    ClassText();
    DebugText();
  }

  /** With an action printing `X` as the only registration on `main`'s
      before hook, the text is `X` followed by the element. */
  lemma BeforeActionScenario(h: Hooks, esc: Escapers, open: OpenTags, p: int)
    requires Chain(h, HookName("main", TagFilter)) == [] && Chain(h, HookName("main", AttributesFilter)) == []
    requires Chain(h, HookName("main", BeforeAction)) == [Registration(p, Echo("X"))]
    requires Chain(h, HookName("main", PrependAction)) == []
    requires esc.attr("div") == "div" && esc.attr("class") == "class" && esc.attr("site-main") == "site-main"
    ensures OpenMarkup(h, esc, false, open, "main", "div", [("class", Str("site-main"))]).text
         == "X" + "<div" + " class=\"site-main\"" + ">"
  {
    OrdinaryAttribute(esc, "class", "site-main");
    OpenAfterOneAction(h, esc, open, "main", "div", [("class", Str("site-main"))], "X", p);
    ClassText();
  }

  /** Base attributes `a="1" b="2"` and an added `b="3"` without overwrite
      render as `a="1" b="2 3"`. */
  lemma AppendWithoutOverwriteScenario(h: Hooks, esc: Escapers, open: OpenTags)
    requires Chain(h, HookName("main", AttributesFilter)) == []
    requires esc.attr("a") == "a" && esc.attr("b") == "b" && esc.attr("1") == "1" && esc.attr("2 3") == "2 3"
    ensures Attributes(AddAttributes(h, "main", [("b", Str("3"))], false, DefaultPriority), esc, false, open, "main",
                       [("a", Str("1")), ("b", Str("2"))])
         == " a=\"1\"" + " b=\"2 3\""
  {
    AppendToPresentKey(h, esc, open, "main", "a", "1", "b", "2", "3");
    OrdinaryAttribute(esc, "a", "1");
    OrdinaryAttribute(esc, "b", "2 3");
    AppendText();
  }
}
