/** What the navigation walker guarantees: the link ids it generates, the
    class and link attributes of an item, the sub-menu label, and how its
    calls move the open-tag map, including the closing tag that gets lost
    when a parent item has children. */
module NavMenuProperties {
  import opened PhpValues
  import opened PhpArray
  import opened MarkupAttributes
  import opened HookBus
  import opened Markup
  import opened MarkupProperties
  import opened NavMenu

  predicate EndsWith(s: string, suffix: string)
  {
    |suffix| <= |s| && s[|s| - |suffix|..] == suffix
  }

  // Link ids.

  /** In "link-" + digits + "-" + rest, the first '-' after the prefix is
      the one right after the digits. */
  lemma DashAfterDigits(a: string, x: string, y: string)
    requires forall i :: 0 <= i < |a| ==> IsDigit(a[i])
    ensures ("link-" + a + "-" + x + y)[5 + |a|] == '-'
    ensures forall i :: 5 <= i < 5 + |a| ==> ("link-" + a + "-" + x + y)[i] != '-'
  {
    var s := "link-" + a + "-" + x + y;
    forall i | 5 <= i < 5 + |a| ensures s[i] != '-' {
      assert s[i] == a[i - 5];
    }
  }

  /** Different items, or one item at different depths, get different ids:
      the id's digits end at the first '-' after "link-", and the depth's
      digits follow the instance counter. */
  lemma LinkIdInjective(id1: nat, depth1: nat, id2: nat, depth2: nat)
    requires LinkId(id1, depth1) == LinkId(id2, depth2)
    ensures id1 == id2 && depth1 == depth2
  {
    var s := LinkId(id1, depth1);
    var a1, a2 := Decimal(id1), Decimal(id2);
    assert Decimal(InstanceCounter) == "1";
    assert s == "link-" + a1 + "-" + "1" + Decimal(depth1);
    assert s == "link-" + a2 + "-" + "1" + Decimal(depth2);
    DashAfterDigits(a1, "1", Decimal(depth1));
    DashAfterDigits(a2, "1", Decimal(depth2));
    assert |a1| == |a2|;
    assert a1 == s[5..5 + |a1|] == a2;
    DecimalInjective(id1, id2);
    assert Decimal(depth1) == s[7 + |a1|..] == Decimal(depth2);
    DecimalInjective(depth1, depth2);
  }

  // The item's class.

  /** The class always starts with "menu__item"; it ends with the active
      marker for an active item and with the dropdown marker for an inactive
      parent; a plain item gets exactly "menu__item". */
  lemma ItemClassMarkers(item: MenuItem, hasChildren: bool)
    ensures "menu__item" <= ItemClass(item, hasChildren)
    ensures Active(item) ==> EndsWith(ItemClass(item, hasChildren), " menu__item--active")
    ensures hasChildren && !Active(item) ==> EndsWith(ItemClass(item, hasChildren), " menu__item--dropdown")
    ensures item.classes == [] && !hasChildren && !Active(item) ==> ItemClass(item, hasChildren) == "menu__item"
  {
    var c := ItemClass(item, hasChildren);
    var withClasses := if item.classes != [] then "menu__item" + " " + Implode(" ", FilterTruthy(item.classes)) else "menu__item";
    var withDropdown := if hasChildren then withClasses + " menu__item--dropdown" else withClasses;
    assert "menu__item" <= withClasses;
    assert withClasses <= withDropdown;
    assert withDropdown <= c;
  }

  /** A non-empty class list whose every entry is filtered out still adds the
      separating space. */
  lemma ItemClassTrailingSpace(item: MenuItem)
    requires item.classes != [] && forall i :: 0 <= i < |item.classes| ==> !TruthyString(item.classes[i])
    requires !Active(item)
    ensures ItemClass(item, false) == "menu__item" + " "
  {
    assert FilterTruthy(item.classes) == [];
    assert "menu__item" + " " + "" == "menu__item" + " ";
  }

  /** For any non-empty class list, the class starts with the base class, one
      space and the truthy custom classes joined by spaces, in their order;
      only the markers follow. */
  lemma ItemClassCustomPrefix(item: MenuItem, hasChildren: bool)
    requires item.classes != []
    ensures "menu__item" + " " + Implode(" ", FilterTruthy(item.classes)) <= ItemClass(item, hasChildren)
  {
    var withClasses := "menu__item" + " " + Implode(" ", FilterTruthy(item.classes));
    var withDropdown := if hasChildren then withClasses + " menu__item--dropdown" else withClasses;
    assert withClasses <= withDropdown;
    assert withDropdown <= ItemClass(item, hasChildren);
  }

  /** The item's custom classes appear after a single space, joined by
      spaces, with the empty ones dropped. */
  lemma ItemClassCustom(item: MenuItem, hasChildren: bool)
    requires |item.classes| == 2 && TruthyString(item.classes[0]) && TruthyString(item.classes[1])
    requires !hasChildren && !Active(item)
    ensures ItemClass(item, hasChildren) == "menu__item" + " " + item.classes[0] + " " + item.classes[1]
  {
    var f := FilterTruthy(item.classes);
    assert f == item.classes;
    ImplodeAppend(" ", [f[0]], [f[1]]);
    assert [f[0]] + [f[1]] == f;
  }

  // The link's attributes.

  /** `$a[$k]` after a conditional assignment. */
  lemma SetIfLookup(a: Attrs, present: bool, k: string, v: Val, k': string)
    ensures Lookup(SetIf(a, present, k, v), k') == if present && k' == k then Some(v) else Lookup(a, k')
  {
    if present {
      SetLookup(a, k, v, k');
    }
  }

  /** Each key of the link's attribute array on its own, as the walker's
      conditions decide it. */
  function LinkAttribute(esc: Escapers, item: MenuItem, depth: nat, k: string): Option<Val>
  {
    if k == "class" then Some(Str("menu__link"))
    else if k == "id" then Some(Str(LinkId(item.id, depth)))
    else if k == "href" then
      (if TruthyString(item.url) then Some(Str(esc.url(item.url))) else None)
    else if k == "rel" then
      (if TruthyString(item.xfn) then Some(Str(esc.attr(item.xfn)))
       else if item.target == "_blank" then Some(Str("noopener noreferrer"))
       else None)
    else if k == "title" then
      (if TruthyString(item.attrTitle) then Some(Str(esc.attr(item.attrTitle))) else None)
    else if k == "target" then
      (if TruthyString(item.target) then Some(Str(esc.attr(item.target))) else None)
    else if k == "aria-current" then
      (if item.current then Some(Str("page")) else None)
    else None
  }

  /** The array built step by step holds exactly those values: `href` only
      for a non-empty URL, `rel` from the XFN field or else for a new-window
      target, `aria-current="page"` only on the current item. */
  lemma LinkAttributesLookup(esc: Escapers, item: MenuItem, depth: nat, k: string)
    ensures Lookup(LinkAttributes(esc, item, depth), k) == LinkAttribute(esc, item, depth, k)
  {
    var base := [("class", Str("menu__link")), ("id", Str(LinkId(item.id, depth)))];
    var withHref := SetIf(base, TruthyString(item.url), "href", Str(esc.url(item.url)));
    var withRel :=
      if TruthyString(item.xfn) then Set(withHref, "rel", Str(esc.attr(item.xfn)))
      else SetIf(withHref, item.target == "_blank", "rel", Str("noopener noreferrer"));
    var withTitle := SetIf(withRel, TruthyString(item.attrTitle), "title", Str(esc.attr(item.attrTitle)));
    var withTarget := SetIf(withTitle, TruthyString(item.target), "target", Str(esc.attr(item.target)));
    assert Lookup(base, k) ==
      if k == "class" then Some(Str("menu__link"))
      else if k == "id" then Some(Str(LinkId(item.id, depth)))
      else None
    by {
      var tail := base[1..];
      assert tail == [("id", Str(LinkId(item.id, depth)))];
      assert tail[1..] == [];
      assert Lookup(tail, k) == if k == "id" then Some(Str(LinkId(item.id, depth))) else Lookup(tail[1..], k);
    }
    SetIfLookup(base, TruthyString(item.url), "href", Str(esc.url(item.url)), k);
    if TruthyString(item.xfn) {
      SetLookup(withHref, "rel", Str(esc.attr(item.xfn)), k);
    } else {
      SetIfLookup(withHref, item.target == "_blank", "rel", Str("noopener noreferrer"), k);
    }
    SetIfLookup(withRel, TruthyString(item.attrTitle), "title", Str(esc.attr(item.attrTitle)), k);
    SetIfLookup(withTitle, TruthyString(item.target), "target", Str(esc.attr(item.target)), k);
    SetIfLookup(withTarget, item.current, "aria-current", Str("page"), k);
  }

  /** No key is assigned twice. */
  lemma LinkAttributesUnique(esc: Escapers, item: MenuItem, depth: nat)
    ensures UniqueKeys(LinkAttributes(esc, item, depth))
  {
    var base := [("class", Str("menu__link")), ("id", Str(LinkId(item.id, depth)))];
    var withHref := SetIf(base, TruthyString(item.url), "href", Str(esc.url(item.url)));
    var withRel :=
      if TruthyString(item.xfn) then Set(withHref, "rel", Str(esc.attr(item.xfn)))
      else SetIf(withHref, item.target == "_blank", "rel", Str("noopener noreferrer"));
    var withTitle := SetIf(withRel, TruthyString(item.attrTitle), "title", Str(esc.attr(item.attrTitle)));
    var withTarget := SetIf(withTitle, TruthyString(item.target), "target", Str(esc.attr(item.target)));
    SetUnique(base, "href", Str(esc.url(item.url)));
    SetUnique(withHref, "rel", Str(esc.attr(item.xfn)));
    SetUnique(withHref, "rel", Str("noopener noreferrer"));
    SetUnique(withRel, "title", Str(esc.attr(item.attrTitle)));
    SetUnique(withTitle, "target", Str(esc.attr(item.target)));
    SetUnique(withTarget, "aria-current", Str("page"));
  }

  /** Keys present after a conditional assignment of a new key. */
  lemma SetIfKeys(a: Attrs, present: bool, k: string, v: Val)
    requires k !in Keys(a)
    ensures Keys(SetIf(a, present, k, v)) == Keys(a) + (if present then [k] else [])
  {
    if present {
      KeysAppend(a, [(k, v)]);
    } else {
      assert Keys(a) + [] == Keys(a);
    }
  }

  /** Five conditional assignments of fresh keys after "class" and "id"
      append the keys assigned, in order. */
  lemma KeysAfterAssignments(a: Attrs, p1: bool, v1: Val, p2: bool, v2: Val, p3: bool, v3: Val,
                             p4: bool, v4: Val, p5: bool, v5: Val)
    requires Keys(a) == ["class", "id"]
    ensures Keys(SetIf(SetIf(SetIf(SetIf(SetIf(a, p1, "href", v1), p2, "rel", v2), p3, "title", v3), p4, "target", v4), p5, "aria-current", v5))
         == ["class", "id"]
            + (if p1 then ["href"] else []) + (if p2 then ["rel"] else []) + (if p3 then ["title"] else [])
            + (if p4 then ["target"] else []) + (if p5 then ["aria-current"] else [])
  {
    var a1 := SetIf(a, p1, "href", v1);
    SetIfKeys(a, p1, "href", v1);
    var a2 := SetIf(a1, p2, "rel", v2);
    SetIfKeys(a1, p2, "rel", v2);
    var a3 := SetIf(a2, p3, "title", v3);
    SetIfKeys(a2, p3, "title", v3);
    var a4 := SetIf(a3, p4, "target", v4);
    SetIfKeys(a3, p4, "target", v4);
    SetIfKeys(a4, p5, "aria-current", v5);
  }

  /** The keys come in the order the walker assigns them, class and id first. */
  lemma LinkAttributesOrder(esc: Escapers, item: MenuItem, depth: nat)
    ensures Keys(LinkAttributes(esc, item, depth)) ==
      ["class", "id"]
      + (if TruthyString(item.url) then ["href"] else [])
      + (if TruthyString(item.xfn) || item.target == "_blank" then ["rel"] else [])
      + (if TruthyString(item.attrTitle) then ["title"] else [])
      + (if TruthyString(item.target) then ["target"] else [])
      + (if item.current then ["aria-current"] else [])
  {
    var base := [("class", Str("menu__link")), ("id", Str(LinkId(item.id, depth)))];
    assert Keys(base) == ["class", "id"] by {
      assert base[1..] == [("id", Str(LinkId(item.id, depth)))];
    }
    var relValue := if TruthyString(item.xfn) then Str(esc.attr(item.xfn)) else Str("noopener noreferrer");
    KeysAfterAssignments(base, TruthyString(item.url), Str(esc.url(item.url)),
      TruthyString(item.xfn) || item.target == "_blank", relValue,
      TruthyString(item.attrTitle), Str(esc.attr(item.attrTitle)),
      TruthyString(item.target), Str(esc.attr(item.target)),
      item.current, Str("page"));
  }

  // The sub-menu list.

  /** Without a label the sub-menu carries only its class; with one, the
      label follows as `aria-labelledby`. */
  lemma SubMenuRendering(esc: Escapers, ariaLabelledby: Option<string>)
    ensures FormatAttributes(esc, SubMenuAttributes(ariaLabelledby)) ==
      " " + esc.attr("class") + "=\"" + esc.attr("menu sub-menu") + "\""
      + (if ariaLabelledby.Some?
         then " " + esc.attr("aria-labelledby") + "=\"" + esc.attr(ariaLabelledby.value) + "\""
         else "")
  {
    var cls: Attrs := [("class", Str("menu sub-menu"))];
    OrdinaryAttribute(esc, "class", "menu sub-menu");
    if ariaLabelledby.Some? {
      var labelled: Attrs := [("aria-labelledby", Str(ariaLabelledby.value))];
      assert SubMenuAttributes(ariaLabelledby) == cls + labelled;
      FormatAppend(esc, cls, labelled);
      OrdinaryAttribute(esc, "aria-labelledby", ariaLabelledby.value);
    } else {
      assert SubMenuAttributes(ariaLabelledby) == cls + [("aria-labelledby", Null)] + [];
      NullOmitted(esc, cls, "aria-labelledby", []);
      assert cls + [] == cls;
    }
  }

  /** After a parent's `start_el`, the sub-menu's `aria-labelledby` is the id
      of that parent's anchor. */
  lemma SubMenuLabelledByParentLink(esc: Escapers, parent: MenuItem, depth: nat)
    ensures Lookup(SubMenuAttributes(Some(LinkId(parent.id, depth))), "aria-labelledby")
         == Lookup(LinkAttributes(esc, parent, depth), "id")
  {
    LinkAttributesLookup(esc, parent, depth, "id");
  }

  // Element rendering and the open-tag map.

  /** After `start_el` the anchor is never open, the item is open exactly when
      its tag survived the filters or it was open before, and every other id
      reads as before. */
  lemma StartElementOpenTags(h: Hooks, esc: Escapers, debug: bool, open: OpenTags, item: MenuItem, depth: nat,
                             hasChildren: bool, other: string)
    ensures var s := StartElement(h, esc, debug, open, item, depth, hasChildren);
            && NavMenuLinkId !in s.open
            && (NavMenuItemId in s.open <==> TruthyTag(ResolveTag(h, NavMenuItemId, "li")) || NavMenuItemId in open)
            && (TruthyTag(ResolveTag(h, NavMenuItemId, "li")) ==> s.open[NavMenuItemId] == ResolveTag(h, NavMenuItemId, "li").value)
            && (other != NavMenuItemId && other != NavMenuLinkId ==>
                  (other in s.open <==> other in open) && (other in open ==> s.open[other] == open[other]))
  {
    OpenLinkCloseMap(h, esc, debug, open, ItemAttributes(item, hasChildren), LinkAttributes(esc, item, depth), other);
  }

  /** The map left by opening the item, opening its link and closing the
      link, for any attribute arrays. */
  lemma OpenLinkCloseMap(h: Hooks, esc: Escapers, debug: bool, open: OpenTags, itemAttrs: Attrs, linkAttrs: Attrs, other: string)
    ensures var li := OpenMarkup(h, esc, debug, open, NavMenuItemId, "li", itemAttrs);
            var a := OpenMarkup(h, esc, debug, li.open, NavMenuLinkId, "a", linkAttrs);
            var m := CloseMarkup(h, esc, a.open, NavMenuLinkId).open;
            && NavMenuLinkId !in m
            && (NavMenuItemId in m <==> TruthyTag(ResolveTag(h, NavMenuItemId, "li")) || NavMenuItemId in open)
            && (TruthyTag(ResolveTag(h, NavMenuItemId, "li")) ==> m[NavMenuItemId] == ResolveTag(h, NavMenuItemId, "li").value)
            && (other != NavMenuItemId && other != NavMenuLinkId ==>
                  (other in m <==> other in open) && (other in open ==> m[other] == open[other]))
  {
  }

  /** Opening an id that has no hooks at all. */
  lemma OpenUnhooked(h: Hooks, esc: Escapers, open: OpenTags, id: string, tag: string, attrs: Attrs)
    requires Chain(h, HookName(id, TagFilter)) == [] && Chain(h, HookName(id, AttributesFilter)) == []
    requires Chain(h, HookName(id, BeforeAction)) == [] && Chain(h, HookName(id, PrependAction)) == []
    requires TruthyString(tag)
    ensures OpenMarkup(h, esc, false, open, id, tag, attrs)
         == Rendered("<" + esc.attr(tag) + FormatAttributes(esc, attrs) + ">", open[id := tag])
  {
    OpenUnfiltered(h, esc, false, open, id, tag, attrs);
    assert DoAction(Chain(h, HookName(id, BeforeAction)), open) == "";
    assert DoAction(Chain(h, HookName(id, PrependAction)), open[id := tag]) == "";
    var core := "<" + esc.attr(tag) + FormatAttributes(esc, attrs) + ">";
    assert "" + "<" == "<";
    assert core + "" == core;
  }

  /** Closing an open id that has no actions. */
  lemma CloseUnhooked(h: Hooks, esc: Escapers, open: OpenTags, id: string)
    requires Chain(h, HookName(id, AppendAction)) == [] && Chain(h, HookName(id, AfterAction)) == []
    requires id in open
    ensures CloseMarkup(h, esc, open, id) == Rendered("</" + esc.attr(open[id]) + ">", open - {id})
  {
    assert DoAction(Chain(h, HookName(id, AppendAction)), open) == "";
    assert DoAction(Chain(h, HookName(id, AfterAction)), open - {id}) == "";
    var core := "</" + esc.attr(open[id]) + ">";
    assert "" + "</" == "</";
    assert core + "" == core;
  }

  /** With no hooks on the item and its anchor, `start_el` appends exactly the
      opening `li`, the opening `a`, the escaped title and the closing `a`. */
  lemma StartElementUnhooked(h: Hooks, esc: Escapers, open: OpenTags, item: MenuItem, depth: nat, hasChildren: bool)
    requires Chain(h, HookName(NavMenuItemId, TagFilter)) == [] && Chain(h, HookName(NavMenuItemId, AttributesFilter)) == []
    requires Chain(h, HookName(NavMenuItemId, BeforeAction)) == [] && Chain(h, HookName(NavMenuItemId, PrependAction)) == []
    requires Chain(h, HookName(NavMenuLinkId, TagFilter)) == [] && Chain(h, HookName(NavMenuLinkId, AttributesFilter)) == []
    requires Chain(h, HookName(NavMenuLinkId, BeforeAction)) == [] && Chain(h, HookName(NavMenuLinkId, PrependAction)) == []
    requires Chain(h, HookName(NavMenuLinkId, AppendAction)) == [] && Chain(h, HookName(NavMenuLinkId, AfterAction)) == []
    ensures StartElement(h, esc, false, open, item, depth, hasChildren).text ==
      ("<" + esc.attr("li") + FormatAttributes(esc, ItemAttributes(item, hasChildren)) + ">")
      + ("<" + esc.attr("a") + FormatAttributes(esc, LinkAttributes(esc, item, depth)) + ">")
      + esc.html(item.title)
      + ("</" + esc.attr("a") + ">")
  {
    var li := OpenMarkup(h, esc, false, open, NavMenuItemId, "li", ItemAttributes(item, hasChildren));
    OpenUnhooked(h, esc, open, NavMenuItemId, "li", ItemAttributes(item, hasChildren));
    var a := OpenMarkup(h, esc, false, li.open, NavMenuLinkId, "a", LinkAttributes(esc, item, depth));
    OpenUnhooked(h, esc, li.open, NavMenuLinkId, "a", LinkAttributes(esc, item, depth));
    CloseUnhooked(h, esc, a.open, NavMenuLinkId);
  }

  /** The closing tag lost when a parent has children: the child's `start_el`
      overwrites the parent's `nav_menu_item` entry, the child's `end_el`
      closes it, and the parent's `end_el` then finds nothing to close and
      prints nothing. Only one closing `li` comes out for the two opened. */
  lemma ParentClosingTagLost(h: Hooks, esc: Escapers, debug: bool, open: OpenTags,
                             parent: MenuItem, child: MenuItem, depth: nat)
    requires TruthyTag(ResolveTag(h, NavMenuItemId, "li"))
    ensures var s1 := StartElement(h, esc, debug, open, parent, depth, true);
            var s2 := OpenMarkup(h, esc, debug, s1.open, NavMenuId, "ul", SubMenuAttributes(Some(LinkId(parent.id, depth))));
            var s3 := StartElement(h, esc, debug, s2.open, child, depth + 1, false);
            var s4 := CloseMarkup(h, esc, s3.open, NavMenuItemId);
            var s5 := CloseMarkup(h, esc, s4.open, NavMenuId);
            var s6 := CloseMarkup(h, esc, s5.open, NavMenuItemId);
            && NavMenuItemId in s1.open
            && NavMenuItemId in s3.open
            && s4.text != ""
            && s6 == Rendered("", s5.open)
  {
    var s1 := StartElement(h, esc, debug, open, parent, depth, true);
    StartElementOpenTags(h, esc, debug, open, parent, depth, true, "");
    var s2 := OpenMarkup(h, esc, debug, s1.open, NavMenuId, "ul", SubMenuAttributes(Some(LinkId(parent.id, depth))));
    var s3 := StartElement(h, esc, debug, s2.open, child, depth + 1, false);
    StartElementOpenTags(h, esc, debug, s2.open, child, depth + 1, false, "");
    var s4 := CloseMarkup(h, esc, s3.open, NavMenuItemId);
    assert |s4.text| > 0;
    var s5 := CloseMarkup(h, esc, s4.open, NavMenuId);
    assert NavMenuItemId !in s5.open;
  }

  /** The current page's item: its anchor carries the URL and
      `aria-current="page"`, and its class ends with the active marker. */
  lemma CurrentPageItem(esc: Escapers, item: MenuItem, depth: nat)
    requires item.url == "/about" && item.current
    ensures Lookup(LinkAttributes(esc, item, depth), "href") == Some(Str(esc.url("/about")))
    ensures Lookup(LinkAttributes(esc, item, depth), "aria-current") == Some(Str("page"))
    ensures EndsWith(ItemClass(item, false), " menu__item--active")
  {
    LinkAttributesLookup(esc, item, depth, "href");
    LinkAttributesLookup(esc, item, depth, "aria-current");
    ItemClassMarkers(item, false);
  }
}
