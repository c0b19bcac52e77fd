/** The theme's navigation walker, `Custom_Nav_Menu`: it renders a menu
    tree through the markup registry, `nav_menu` for each sub-menu list,
    `nav_menu_item` for each item and `nav_menu_link` for its anchor. */
module NavMenu {
  import opened PhpValues
  import opened PhpArray
  import opened MarkupAttributes
  import opened Markup

  const NavMenuId := "nav_menu"
  const NavMenuItemId := "nav_menu_item"
  const NavMenuLinkId := "nav_menu_link"

  /** `$instance_counter`, fixed at 1 for every item. */
  const InstanceCounter: nat := 1

  /** The fields of a WordPress menu item the walker reads. */
  datatype MenuItem = MenuItem(
    id: nat,                       // ID
    title: string,
    url: string,
    target: string,
    xfn: string,
    attrTitle: string,             // attr_title
    classes: seq<string>,
    current: bool,
    currentItemAncestor: bool,     // current_item_ancestor
    currentItemParent: bool)       // current_item_parent

  /** `array_filter` without a callback, on strings: drops "" and "0". */
  function FilterTruthy(xs: seq<string>): (r: seq<string>)
    ensures |r| <= |xs|
    ensures forall x :: x in r <==> x in xs && TruthyString(x)
    ensures (forall i :: 0 <= i < |xs| ==> TruthyString(xs[i])) ==> r == xs
    ensures (forall i :: 0 <= i < |xs| ==> !TruthyString(xs[i])) ==> r == []
  {
    if xs == [] then []
    else (if TruthyString(xs[0]) then [xs[0]] else []) + FilterTruthy(xs[1..])
  }

  /** The filter keeps the kept entries in their order and with their
      repetitions: filtering a concatenation filters each part. */
  lemma {:induction false} FilterTruthyAppend(a: seq<string>, b: seq<string>)
    ensures FilterTruthy(a + b) == FilterTruthy(a) + FilterTruthy(b)
  {
    if a == [] {
      assert a + b == b;
    } else {
      assert (a + b)[0] == a[0];
      assert (a + b)[1..] == a[1..] + b;
      FilterTruthyAppend(a[1..], b);
    }
  }

  /** `implode($glue, $pieces)`. */
  function Implode(glue: string, pieces: seq<string>): string
  {
    if pieces == [] then ""
    else if |pieces| == 1 then pieces[0]
    else pieces[0] + glue + Implode(glue, pieces[1..])
  }

  /** Imploding two non-empty lists is imploding each and gluing the results. */
  lemma {:induction false} ImplodeAppend(glue: string, a: seq<string>, b: seq<string>)
    requires a != [] && b != []
    ensures Implode(glue, a + b) == Implode(glue, a) + glue + Implode(glue, b)
  {
    if |a| == 1 {
      assert (a + b)[1..] == b;
    } else {
      assert (a + b)[1..] == a[1..] + b;
      ImplodeAppend(glue, a[1..], b);
    }
  }

  /** `"link-{$item->ID}-{$instance_counter}{$depth}"`. */
  function LinkId(id: nat, depth: nat): string
  {
    "link-" + Decimal(id) + "-" + Decimal(InstanceCounter) + Decimal(depth)
  }

  predicate Active(item: MenuItem)
  {
    item.current || item.currentItemAncestor || item.currentItemParent
  }

  /** The item's class attribute, grown by `.=` in the order the walker
      appends to it. */
  function ItemClass(item: MenuItem, hasChildren: bool): string
  {
    var base := "menu__item";
    var withClasses := if item.classes != [] then base + " " + Implode(" ", FilterTruthy(item.classes)) else base;
    var withDropdown := if hasChildren then withClasses + " menu__item--dropdown" else withClasses;
    if Active(item) then withDropdown + " menu__item--active" else withDropdown
  }

  function ItemAttributes(item: MenuItem, hasChildren: bool): Attrs
  {
    [("class", Str(ItemClass(item, hasChildren)))]
  }

  /** `$a[$k] = $v` when `present` holds, nothing otherwise. */
  function SetIf(a: Attrs, present: bool, k: string, v: Val): Attrs
  {
    if present then Set(a, k, v) else a
  }

  /** The anchor's attribute array, assigned key by key in the walker's order.
      The stored values are already escaped once; `esc_attributes` escapes
      them again when it serialises them. */
  function LinkAttributes(esc: Escapers, item: MenuItem, depth: nat): Attrs
  {
    var base := [("class", Str("menu__link")), ("id", Str(LinkId(item.id, depth)))];
    var withHref := SetIf(base, TruthyString(item.url), "href", Str(esc.url(item.url)));
    var withRel :=
      if TruthyString(item.xfn) then Set(withHref, "rel", Str(esc.attr(item.xfn)))
      else SetIf(withHref, item.target == "_blank", "rel", Str("noopener noreferrer"));
    var withTitle := SetIf(withRel, TruthyString(item.attrTitle), "title", Str(esc.attr(item.attrTitle)));
    var withTarget := SetIf(withTitle, TruthyString(item.target), "target", Str(esc.attr(item.target)));
    SetIf(withTarget, item.current, "aria-current", Str("page"))
  }

  /** The sub-menu list's attributes; a missing label is a null value. */
  function SubMenuAttributes(ariaLabelledby: Option<string>): Attrs
  {
    [("class", Str("menu sub-menu")),
     ("aria-labelledby", if ariaLabelledby.Some? then Str(ariaLabelledby.value) else Null)]
  }

  /** What `start_el` appends and the open-tag map it leaves: the item opened,
      its anchor opened, the escaped title, the anchor closed. */
  function StartElement(h: Hooks, esc: Escapers, debug: bool, open: OpenTags, item: MenuItem, depth: nat, hasChildren: bool): Rendered
  {
    var li := OpenMarkup(h, esc, debug, open, NavMenuItemId, "li", ItemAttributes(item, hasChildren));
    var a := OpenMarkup(h, esc, debug, li.open, NavMenuLinkId, "a", LinkAttributes(esc, item, depth));
    var closeA := CloseMarkup(h, esc, a.open, NavMenuLinkId);
    Rendered(li.text + a.text + esc.html(item.title) + closeA.text, closeA.open)
  }

  /** The first half of `start_el`: the item's class grown by `.=`. */
  method BuildItemClass(item: MenuItem, hasChildren: bool) returns (itemClass: string)
    ensures itemClass == ItemClass(item, hasChildren)
  {
    itemClass := "menu__item";
    if item.classes != [] {
      itemClass := itemClass + " " + Implode(" ", FilterTruthy(item.classes));
    }
    if hasChildren {
      itemClass := itemClass + " menu__item--dropdown";
    }
    if item.current || item.currentItemAncestor || item.currentItemParent {
      itemClass := itemClass + " menu__item--active";
    }
  }

  /** The anchor's attribute array, assigned key by key as `start_el` does. */
  method BuildLinkAttributes(esc: Escapers, item: MenuItem, depth: nat) returns (linkAttributes: Attrs)
    ensures linkAttributes == LinkAttributes(esc, item, depth)
  {
    var instanceCounter := InstanceCounter;
    var linkId := "link-" + Decimal(item.id) + "-" + Decimal(instanceCounter) + Decimal(depth);
    linkAttributes := [("class", Str("menu__link")), ("id", Str(linkId))];
    if TruthyString(item.url) {
      linkAttributes := Set(linkAttributes, "href", Str(esc.url(item.url)));
    }
    if TruthyString(item.xfn) {
      linkAttributes := Set(linkAttributes, "rel", Str(esc.attr(item.xfn)));
    } else if item.target == "_blank" {
      linkAttributes := Set(linkAttributes, "rel", Str("noopener noreferrer"));
    }
    if TruthyString(item.attrTitle) {
      linkAttributes := Set(linkAttributes, "title", Str(esc.attr(item.attrTitle)));
    }
    if TruthyString(item.target) {
      linkAttributes := Set(linkAttributes, "target", Str(esc.attr(item.target)));
    }
    if item.current {
      linkAttributes := Set(linkAttributes, "aria-current", Str("page"));
    }
  }

  /** `Custom_Nav_Menu`. WordPress's walker sets `hasChildren` before each
      `StartEl`; the output string is passed in and the extended one returned. */
  class CustomNavMenu {
    var ariaLabelledby: Option<string>
    var hasChildren: bool

    constructor ()
      ensures ariaLabelledby == None && !hasChildren
    {
      ariaLabelledby := None;
      hasChildren := false;
    }

    /** `start_lvl`: opens the sub-menu list, labelled by the last parent's
        link. The depth only reaches the hooks, which do not read it here. */
    method StartLvl(output: string, depth: nat, reg: Registry, h: Hooks, esc: Escapers, debug: bool)
      returns (output': string)
      requires reg.Valid()
      modifies reg
      ensures reg.Valid()
      ensures output' == output + OpenMarkup(h, esc, debug, old(reg.open), NavMenuId, "ul", SubMenuAttributes(ariaLabelledby)).text
      ensures reg.open == OpenMarkup(h, esc, debug, old(reg.open), NavMenuId, "ul", SubMenuAttributes(ariaLabelledby)).open
    {
      var text := reg.GetOpenMarkup(h, esc, debug, NavMenuId, "ul", SubMenuAttributes(ariaLabelledby));
      output' := output + text;
    }

    /** `end_lvl`. */
    method EndLvl(output: string, depth: nat, reg: Registry, h: Hooks, esc: Escapers)
      returns (output': string)
      requires reg.Valid()
      modifies reg
      ensures reg.Valid()
      ensures output' == output + CloseMarkup(h, esc, old(reg.open), NavMenuId).text
      ensures reg.open == CloseMarkup(h, esc, old(reg.open), NavMenuId).open
    {
      var text := reg.GetCloseMarkup(h, esc, NavMenuId);
      output' := output + text;
    }

    /** `start_el`. */
    method StartEl(output: string, item: MenuItem, depth: nat, reg: Registry, h: Hooks, esc: Escapers, debug: bool)
      returns (output': string)
      requires reg.Valid()
      modifies this, reg
      ensures reg.Valid()
      ensures hasChildren == old(hasChildren)
      ensures ariaLabelledby == if hasChildren then Some(LinkId(item.id, depth)) else old(ariaLabelledby)
      ensures output' == output + StartElement(h, esc, debug, old(reg.open), item, depth, hasChildren).text
      ensures reg.open == StartElement(h, esc, debug, old(reg.open), item, depth, hasChildren).open
    {
      var linkId := LinkId(item.id, depth);
      if hasChildren {
        ariaLabelledby := Some(linkId);
      }
      var itemClass := BuildItemClass(item, hasChildren);
      var linkAttributes := BuildLinkAttributes(esc, item, depth);
      var li := reg.GetOpenMarkup(h, esc, debug, NavMenuItemId, "li", [("class", Str(itemClass))]);
      var a := reg.GetOpenMarkup(h, esc, debug, NavMenuLinkId, "a", linkAttributes);
      var closeA := reg.GetCloseMarkup(h, esc, NavMenuLinkId);
      output' := output + (li + a + esc.html(item.title) + closeA);
    }

    /** `end_el`: closes whatever `nav_menu_item` is recorded, if any. */
    method EndEl(output: string, item: MenuItem, depth: nat, reg: Registry, h: Hooks, esc: Escapers)
      returns (output': string)
      requires reg.Valid()
      modifies reg
      ensures reg.Valid()
      ensures output' == output + CloseMarkup(h, esc, old(reg.open), NavMenuItemId).text
      ensures reg.open == CloseMarkup(h, esc, old(reg.open), NavMenuItemId).open
    {
      var text := reg.GetCloseMarkup(h, esc, NavMenuItemId);
      output' := output + text;
    }
  }
}
