/** The attribute half of the markup system: serialising an attribute array
    into escaped HTML (`esc_attributes`), and the array transforms that the
    `add_attributes` and `remove_attributes` helpers register as filters. */
module MarkupAttributes {
  import opened PhpValues
  import opened PhpArray

  /** WordPress's escaping functions. They are not part of the theme, so the
      model takes them as arbitrary total string functions. */
  datatype Escapers = Escapers(
    attr: string -> string,   // esc_attr
    url: string -> string,    // esc_url
    js: string -> string,     // esc_js
    html: string -> string)   // esc_html

  datatype Escaper = EscAttr | EscUrl | EscJs

  /** The escaper chosen by attribute name; unlisted names use esc_attr. */
  function EscaperFor(name: string): Escaper
  {
    if name == "href" || name == "src" || name == "action" then EscUrl
    else if name == "onclick" then EscJs
    else EscAttr
  }

  function Escape(esc: Escapers, e: Escaper, s: string): string
  {
    match e
    case EscAttr => esc.attr(s)
    case EscUrl => esc.url(s)
    case EscJs => esc.js(s)
  }

  /** The text one loop iteration of `esc_attributes` appends. */
  function FormatAttribute(esc: Escapers, name: string, value: Val): string
  {
    match value
    case Null => ""
    case Bool(_) => " " + esc.attr(name)
    case Str(s) => " " + esc.attr(name) + "=\"" + Escape(esc, EscaperFor(name), s) + "\""
  }

  function Piece(esc: Escapers): Entry -> string
  {
    (e: Entry) => FormatAttribute(esc, e.0, e.1)
  }

  /** The pieces of a sequence, concatenated in order. */
  function Concat<T>(piece: T -> string, s: seq<T>): string
  {
    if s == [] then "" else Concat(piece, s[..|s| - 1]) + piece(s[|s| - 1])
  }

  /** The serialised attribute string for an attribute array. */
  function FormatAttributes(esc: Escapers, a: Attrs): string
  {
    Concat(Piece(esc), a)
  }

  /** `esc_attributes`: one pass over the array, accumulating into a string. */
  method EscAttributes(esc: Escapers, attributes: Attrs) returns (result: string)
    ensures result == FormatAttributes(esc, attributes)
  {
    result := "";
    var i := 0;
    while i < |attributes|
      invariant 0 <= i <= |attributes|
      invariant result == FormatAttributes(esc, attributes[..i])
    {
      var (name, value) := attributes[i];
      ghost var done := attributes[..i + 1];
      assert done[..i] == attributes[..i] && done[i] == (name, value);
      assert FormatAttributes(esc, done) == result + FormatAttribute(esc, name, value);
      if value == Null {
        i := i + 1;
        continue;
      }
      result := result + " " + esc.attr(name);
      if value.Bool? {
        i := i + 1;
        continue;
      }
      var e := EscaperFor(name);
      result := result + "=\"" + Escape(esc, e, value.s) + "\"";
      i := i + 1;
    }
    assert attributes[..i] == attributes;
  }

  lemma {:induction false} ConcatAppend<T>(piece: T -> string, a: seq<T>, b: seq<T>)
    ensures Concat(piece, a + b) == Concat(piece, a) + Concat(piece, b)
    decreases |b|
  {
    if b == [] {
      assert a + b == a;
    } else {
      var n := |b| - 1;
      var ab := a + b;
      assert ab[..|ab| - 1] == a + b[..n];
      assert ab[|ab| - 1] == b[n];
      ConcatAppend(piece, a, b[..n]);
    }
  }

  /** Serialisation distributes over concatenation of attribute arrays. */
  lemma FormatAppend(esc: Escapers, a: Attrs, b: Attrs)
    ensures FormatAttributes(esc, a + b) == FormatAttributes(esc, a) + FormatAttributes(esc, b)
  {
    ConcatAppend(Piece(esc), a, b);
  }

  /** The result is empty exactly when every value is null; otherwise it
      starts with the single space that separates it from the tag name. */
  lemma {:induction false} FormatEmptyIffAllNull(esc: Escapers, a: Attrs)
    ensures FormatAttributes(esc, a) == "" <==> forall i :: 0 <= i < |a| ==> a[i].1 == Null
    ensures FormatAttributes(esc, a) != "" ==> FormatAttributes(esc, a)[0] == ' '
    decreases |a|
  {
    if a != [] {
      var n := |a| - 1;
      FormatEmptyIffAllNull(esc, a[..n]);
      assert forall i :: 0 <= i < n ==> a[..n][i] == a[i];
      var last := FormatAttribute(esc, a[n].0, a[n].1);
      assert FormatAttributes(esc, a) == FormatAttributes(esc, a[..n]) + last;
      assert last == "" <==> a[n].1 == Null;
      assert last != "" ==> last[0] == ' ';
    }
  }

  lemma FormatSingle(esc: Escapers, name: string, value: Val)
    ensures FormatAttributes(esc, [(name, value)]) == FormatAttribute(esc, name, value)
  {
    var s: Attrs := [(name, value)];
    assert s[..0] == [];
    assert Concat(Piece(esc), s) == Concat(Piece(esc), []) + Piece(esc)(s[0]);
    assert Piece(esc)(s[0]) == FormatAttribute(esc, name, value);
  }

  /** A null value is omitted entirely, wherever it stands. */
  lemma NullOmitted(esc: Escapers, a: Attrs, name: string, b: Attrs)
    ensures FormatAttributes(esc, a + [(name, Null)] + b) == FormatAttributes(esc, a + b)
  {
    var mid: Attrs := [(name, Null)];
    FormatSingle(esc, name, Null);
    FormatAppend(esc, a + mid, b);
    FormatAppend(esc, a, mid);
    FormatAppend(esc, a, b);
  }

  /** A boolean value, false included, renders as the bare escaped name. */
  lemma BooleanRendersBareName(esc: Escapers, name: string, b: bool)
    ensures FormatAttributes(esc, [(name, Bool(b))]) == " " + esc.attr(name)
  {
    FormatSingle(esc, name, Bool(b));
  }

  /** A string value renders as `name="value"`, the value escaped by name. */
  lemma StringRendersEscapedByName(esc: Escapers, name: string, v: string)
    ensures FormatAttributes(esc, [(name, Str(v))]) ==
      " " + esc.attr(name) + "=\"" +
      (if name == "href" || name == "src" || name == "action" then esc.url(v)
       else if name == "onclick" then esc.js(v)
       else esc.attr(v)) + "\""
  {
    FormatSingle(esc, name, Str(v));
  }

  /** An attribute other than `href`, `src`, `action` and `onclick` has its
      value escaped with `esc_attr`. */
  lemma OrdinaryAttribute(esc: Escapers, name: string, v: string)
    requires name != "href" && name != "src" && name != "action" && name != "onclick"
    ensures FormatAttributes(esc, [(name, Str(v))]) == " " + esc.attr(name) + "=\"" + esc.attr(v) + "\""
  {
    StringRendersEscapedByName(esc, name, v);
  }

  // The filter closure registered by `add_attributes`.

  /** The value one loop iteration stores under `name`: the old and new
      values joined by a space when not overwriting and the old value is set,
      otherwise the new value. */
  function AddedValue(current: Attrs, name: string, value: Val, overwrite: bool): Val
  {
    if !overwrite && Isset(current, name) then Str(ToStr(Lookup(current, name).value) + " " + ToStr(value))
    else value
  }

  /** One loop iteration of the closure. */
  function AddAttribute(current: Attrs, name: string, value: Val, overwrite: bool): Attrs
  {
    Set(current, name, AddedValue(current, name, value, overwrite))
  }

  /** The array the `add_attributes` closure returns. */
  function AddedAttributes(current: Attrs, added: Attrs, overwrite: bool): Attrs
  {
    if added == [] then current
    else
      var n := |added| - 1;
      AddAttribute(AddedAttributes(current, added[..n], overwrite), added[n].0, added[n].1, overwrite)
  }

  /** The closure itself: a loop that updates `$current_attributes` in place. */
  method AddAttributesCallback(current: Attrs, added: Attrs, overwrite: bool) returns (result: Attrs)
    ensures result == AddedAttributes(current, added, overwrite)
  {
    result := current;
    var i := 0;
    while i < |added|
      invariant 0 <= i <= |added|
      invariant result == AddedAttributes(current, added[..i], overwrite)
    {
      var (name, value) := added[i];
      assert added[..i + 1][..i] == added[..i];
      assert added[..i + 1][i] == added[i];
      if !overwrite && Isset(result, name) {
        result := Set(result, name, Str(ToStr(Lookup(result, name).value) + " " + ToStr(value)));
      } else {
        result := Set(result, name, value);
      }
      i := i + 1;
    }
    assert added[..i] == added;
  }

  /** The last key of an array with unique keys is not among the others. */
  lemma LastKeyFresh(a: Attrs)
    requires UniqueKeys(a) && a != []
    ensures a[|a| - 1].0 !in Keys(a[..|a| - 1])
  {
    var n := |a| - 1;
    KeysIndex(a[..n]);
    forall i | 0 <= i < n ensures Keys(a[..n])[i] != a[n].0 {
      assert a[..n][i] == a[i];
    }
  }

  /** Looking a key up in an array extended by one entry. */
  lemma LookupSnoc(a: Attrs, name: string, value: Val, k: string)
    ensures Lookup(a + [(name, value)], k) ==
      if k in Keys(a) then Lookup(a, k) else if k == name then Some(value) else None
  {
    LookupAppend(a, [(name, value)], k);
    assert [(name, value)][1..] == [];
  }

  /** The value stored depends on the old array only through its entry for
      the key. */
  lemma AddedValueLocal(a: Attrs, b: Attrs, k: string, value: Val, overwrite: bool)
    requires Lookup(a, k) == Lookup(b, k)
    ensures AddedValue(a, k, value, overwrite) == AddedValue(b, k, value, overwrite)
  {
  }

  /** What `add_attributes` leaves under each key: an added key holds
      AddedValue of its old and new values; every other key is untouched. */
  lemma {:induction false} AddedAttributesLookup(current: Attrs, added: Attrs, overwrite: bool, k: string)
    requires UniqueKeys(added)
    ensures Lookup(AddedAttributes(current, added, overwrite), k) ==
      if Lookup(added, k).Some? then Some(AddedValue(current, k, Lookup(added, k).value, overwrite))
      else Lookup(current, k)
    decreases |added|
  {
    if added != [] {
      var n := |added| - 1;
      var prefix := added[..n];
      var name, value := added[n].0, added[n].1;
      var before := AddedAttributes(current, prefix, overwrite);
      var after := AddedAttributes(current, added, overwrite);
      assert Lookup(after, k) == if k == name then Some(AddedValue(before, name, value, overwrite)) else Lookup(before, k) by {
        assert after == AddAttribute(before, name, value, overwrite);
        SetLookup(before, name, AddedValue(before, name, value, overwrite), k);
      }
      assert Lookup(added, k) == if k in Keys(prefix) then Lookup(prefix, k) else if k == name then Some(value) else None by {
        assert added == prefix + [(name, value)];
        LookupSnoc(prefix, name, value, k);
      }
      assert UniqueKeys(prefix);
      AddedAttributesLookup(current, prefix, overwrite, k);
      LookupNone(prefix, k);
      if k == name {
        assert k !in Keys(prefix) by {
          LastKeyFresh(added);
        }
        AddedValueLocal(before, current, k, value, overwrite);
      }
    }
  }

  /** Existing keys keep their place at the front; added keys that were new
      follow them. */
  lemma {:induction false} AddedAttributesKeepsOrder(current: Attrs, added: Attrs, overwrite: bool)
    ensures |AddedAttributes(current, added, overwrite)| >= |current|
    ensures Keys(AddedAttributes(current, added, overwrite))[..|current|] == Keys(current)
    decreases |added|
  {
    if added != [] {
      var n := |added| - 1;
      AddedAttributesKeepsOrder(current, added[..n], overwrite);
      var before := AddedAttributes(current, added[..n], overwrite);
      var (name, value) := added[n];
      var r := AddedAttributes(current, added, overwrite);
      if name !in Keys(before) {
        KeysAppend(before, [(name, AddedValue(before, name, value, overwrite))]);
        assert Keys(r) == Keys(before) + [name];
        assert Keys(r)[..|before|] == Keys(before);
        assert Keys(r)[..|current|] == Keys(before)[..|current|];
      }
    }
  }

  /** The keys of `ks` that are not in `existing`, in their order. */
  function NewKeys(existing: seq<string>, ks: seq<string>): (r: seq<string>)
    ensures forall x :: x in r ==> x in ks && x !in existing
  {
    if ks == [] then []
    else
      var n := |ks| - 1;
      NewKeys(existing, ks[..n]) + (if ks[n] in existing then [] else [ks[n]])
  }

  /** The keys of a non-empty array: those of all but its last entry, then
      the last entry's key. */
  lemma KeysSnoc(a: Attrs)
    requires a != []
    ensures Keys(a) == Keys(a[..|a| - 1]) + [a[|a| - 1].0]
  {
    var n := |a| - 1;
    var init, last := a[..n], [a[n]];
    assert a == init + last;
    KeysAppend(init, last);
    assert last[1..] == [];
    assert Keys(last) == [a[n].0] + Keys(last[1..]);
  }

  /** One assignment on an array whose keys are `kc + nk`: a key outside
      them is appended, any other leaves the keys as they were. */
  lemma SetKeysStep(before: Attrs, name: string, v: Val, kc: seq<string>, nk: seq<string>)
    requires Keys(before) == kc + nk
    requires name in Keys(before) <==> name in kc
    ensures Keys(Set(before, name, v)) == kc + (nk + (if name in kc then [] else [name]))
  {
    if name in kc {
      assert nk + [] == nk;
    } else {
      KeysAppend(before, [(name, v)]);
      assert Keys([(name, v)]) == [name];
    }
  }

  /** The merged array's keys: the old keys in their order, then each added
      key that was new, in the order of the added array. */
  lemma {:induction false} AddedAttributesKeys(current: Attrs, added: Attrs, overwrite: bool)
    requires UniqueKeys(added)
    ensures Keys(AddedAttributes(current, added, overwrite)) == Keys(current) + NewKeys(Keys(current), Keys(added))
    decreases |added|
  {
    if added != [] {
      var n := |added| - 1;
      var prefix := added[..n];
      var name, value := added[n].0, added[n].1;
      var kc, kp := Keys(current), Keys(prefix);
      assert UniqueKeys(prefix);
      AddedAttributesKeys(current, prefix, overwrite);
      var before := AddedAttributes(current, prefix, overwrite);
      KeysSnoc(added);
      assert NewKeys(kc, Keys(added)) == NewKeys(kc, kp) + (if name in kc then [] else [name]) by {
        assert Keys(added)[..n] == kp;
      }
      assert name in Keys(before) <==> name in kc by {
        LastKeyFresh(added);
      }
      SetKeysStep(before, name, AddedValue(before, name, value, overwrite), kc, NewKeys(kc, kp));
    }
  }

  lemma {:induction false} AddedAttributesUnique(current: Attrs, added: Attrs, overwrite: bool)
    requires UniqueKeys(current)
    ensures UniqueKeys(AddedAttributes(current, added, overwrite))
    decreases |added|
  {
    if added != [] {
      var n := |added| - 1;
      AddedAttributesUnique(current, added[..n], overwrite);
      var before := AddedAttributes(current, added[..n], overwrite);
      var (name, value) := added[n];
      SetUnique(before, name, AddedValue(before, name, value, overwrite));
    }
  }

  // The filter closure registered by `remove_attributes`.

  /** The loop of the closure: unset each listed name in turn. */
  function RemovedAttributes(current: Attrs, names: seq<string>): Attrs
  {
    if names == [] then current
    else Unset(RemovedAttributes(current, names[..|names| - 1]), names[|names| - 1])
  }

  /** Unsetting the names one by one removes exactly those keys and keeps
      every other entry, in its order. */
  lemma {:induction false} RemovedIsWithout(current: Attrs, names: seq<string>)
    ensures RemovedAttributes(current, names) == Without(current, set n | n in names)
    decreases |names|
  {
    if names == [] {
      assert (set x | x in names) == {};
      WithoutNothing(current);
    } else {
      var n := |names| - 1;
      RemovedIsWithout(current, names[..n]);
      WithoutWithout(current, set x | x in names[..n], {names[n]});
      assert (set x | x in names[..n]) + {names[n]} == set x | x in names by {
        assert names == names[..n] + [names[n]];
      }
    }
  }

  lemma {:induction false} WithoutNothing(a: Attrs)
    ensures Without(a, {}) == a
  {
    if a != [] {
      WithoutNothing(a[1..]);
    }
  }

  /** The scope test of the closure: a truthy group restricts the removal to
      renders inside that group's open markup. */
  function ScopedRemoval(current: Attrs, names: seq<string>, group: string, open: map<string, string>): Attrs
  {
    if TruthyString(group) && group !in open then current
    else RemovedAttributes(current, names)
  }

  /** The closure of `remove_attributes`, with the scope test read as
      `is_markup_open($group)`. */
  method RemoveAttributesCallback(current: Attrs, names: seq<string>, group: string, open: map<string, string>)
    returns (result: Attrs)
    ensures result == ScopedRemoval(current, names, group, open)
  {
    if TruthyString(group) && group !in open {
      return current;
    }
    result := current;
    var i := 0;
    while i < |names|
      invariant 0 <= i <= |names|
      invariant result == RemovedAttributes(current, names[..i])
    {
      assert names[..i + 1][..i] == names[..i];
      result := Unset(result, names[i]);
      i := i + 1;
    }
    assert names[..i] == names;
  }

  /** The closure as written evaluates `$this->is_open($group)` for a truthy
      group; a closure declared in a namespace function has no `$this`, so
      PHP throws an Error. None stands for that fatal error. */
  function RemoveAttributesCallbackAsWritten(current: Attrs, names: seq<string>, group: string): Option<Attrs>
  {
    if TruthyString(group) then None
    else Some(RemovedAttributes(current, names))
  }

  /** With a scope the as-written closure never returns: any truthy group,
      even one that is open, ends in the fatal error; the corrected closure
      removes the names when the group is open and keeps them otherwise. */
  lemma ScopedRemovalAsWrittenFails(current: Attrs, names: seq<string>)
    ensures RemoveAttributesCallbackAsWritten(current, names, "header").None?
    ensures ScopedRemoval(current, names, "header", map["header" := "header"]) == RemovedAttributes(current, names)
    ensures ScopedRemoval(current, names, "header", map[]) == current
  {
  }

  /** Without a scope both readings agree. */
  lemma UnscopedRemovalAgrees(current: Attrs, names: seq<string>, open: map<string, string>)
    ensures RemoveAttributesCallbackAsWritten(current, names, "") == Some(ScopedRemoval(current, names, "", open))
  {
  }
}
