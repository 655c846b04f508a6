/** The screen-layout extractor of the debug link, over JSON values. */
module Layout {
  import opened Bytes

  datatype Json =
    | Null
    | Bool(b: bool)
    | Number(n: real)
    | Str(s: string)
    | Arr(items: seq<Json>)
    | Obj(members: map<string, Json>)

  function Get(v: Json, key: string): Option<Json> {
    if v.Obj? && key in v.members then Some(v.members[key]) else None
  }

  /** The text under a key; "" if there is none, which the extractor treats alike. */
  function Text(v: Json, key: string): string {
    match Get(v, key)
    case Some(Str(s)) => s
    case _ => ""
  }

  // ---- What a tree says: title candidates, lines and buttons, in traversal order ----

  function NonEmpty(s: string): seq<string> {
    if s == "" then [] else [s]
  }

  /** A node's own candidates for the title, best first. */
  function OwnTitles(v: Json): seq<string> {
    NonEmpty(Text(v, "title")) + NonEmpty(Text(v, "subtitle")) + NonEmpty(Text(v, "label"))
    + NonEmpty(Text(v, "component"))
  }

  /** A button is an object with a text, or just a string. */
  function ButtonText(v: Json): string {
    match Get(v, "text")
    case Some(Str(s)) => s
    case _ => if v.Str? then v.s else ""
  }

  const BUTTON_KEYS := ["left", "middle", "right"]

  function ButtonsUnder(buttons: Json, keys: seq<string>): seq<string> {
    if keys == [] then []
    else
      (match Get(buttons, keys[0])
       case Some(b) => NonEmpty(ButtonText(b))
       case None => [])
      + ButtonsUnder(buttons, keys[1..])
  }

  lemma ButtonsUnderStep(buttons: Json, keys: seq<string>, i: nat)
    requires i < |keys|
    ensures var b := Get(buttons, keys[i]); var rest := ButtonsUnder(buttons, keys[i + 1..]);
      ButtonsUnder(buttons, keys[i..]) == (if b.Some? then NonEmpty(ButtonText(b.value)) else []) + rest
    ensures keys[0..] == keys && ButtonsUnder(buttons, keys[|keys|..]) == []
  {
    assert keys[i..][1..] == keys[i + 1..];
  }

  function OwnButtons(v: Json): seq<string> {
    match Get(v, "buttons")
    case Some(b) => ButtonsUnder(b, BUTTON_KEYS)
    case None => []
  }

  function Words(items: seq<Json>): seq<string> {
    if items == [] then []
    else (if items[0].Str? then [items[0].s] else []) + Words(items[1..])
  }

  function Joined(words: seq<string>): string {
    if words == [] then ""
    else if |words| == 1 then words[0]
    else words[0] + " " + Joined(words[1..])
  }

  function ParagraphText(p: Json): string {
    match p
    case Arr(words) => Joined(Words(words))
    case Str(s) => s
    case _ => ""
  }

  function ParagraphLines(paragraphs: seq<Json>): seq<string> {
    if paragraphs == [] then []
    else NonEmpty(ParagraphText(paragraphs[0])) + ParagraphLines(paragraphs[1..])
  }

  function Notification(s: string): seq<string> {
    if s == "" then [] else ["[" + s + "]"]
  }

  function OwnLines(v: Json): seq<string> {
    (match Get(v, "paragraphs")
     case Some(Arr(ps)) => ParagraphLines(ps)
     case _ => [])
    + NonEmpty(Text(v, "description")) + NonEmpty(Text(v, "text")) + NonEmpty(Text(v, "value"))
    + Notification(Text(v, "notification"))
  }

  const SUB_KEYS := ["content", "page", "inner"]
  const LIST_KEYS := ["items", "pages"]

  ghost predicate Under(cs: seq<Json>, v: Json) {
    forall i :: 0 <= i < |cs| ==> cs[i] < v
  }

  /** The sub-values a node is searched in, in order. */
  function SubObjects(v: Json, keys: seq<string>): (r: seq<Json>)
    ensures Under(r, v)
  {
    if keys == [] then []
    else (match Get(v, keys[0]) case Some(c) => [c] case None => []) + SubObjects(v, keys[1..])
  }

  function SubItems(v: Json, keys: seq<string>): (r: seq<Json>)
    ensures Under(r, v)
  {
    if keys == [] then []
    else (match Get(v, keys[0]) case Some(Arr(items)) => items case _ => []) + SubItems(v, keys[1..])
  }

  function Children(v: Json): (r: seq<Json>)
    ensures Under(r, v)
  {
    SubObjects(v, SUB_KEYS) + SubItems(v, LIST_KEYS)
  }

  /** The objects the traversal visits, each before the objects under it. */
  function Nodes(v: Json): seq<Json>
    decreases v
  {
    if v.Obj? then [v] + NodesOf(v, Children(v)) else []
  }

  function NodesOf(v: Json, cs: seq<Json>): seq<Json>
    requires Under(cs, v)
    decreases v, |cs|
  {
    if cs == [] then [] else Nodes(cs[0]) + NodesOf(v, cs[1..])
  }

  function Titles(ns: seq<Json>): seq<string> {
    if ns == [] then [] else OwnTitles(ns[0]) + Titles(ns[1..])
  }

  function Lines(ns: seq<Json>): seq<string> {
    if ns == [] then [] else OwnLines(ns[0]) + Lines(ns[1..])
  }

  function Buttons(ns: seq<Json>): seq<string> {
    if ns == [] then [] else OwnButtons(ns[0]) + Buttons(ns[1..])
  }

  /** The title kept so far, or else the first candidate. */
  function TitleAfter(title: string, candidates: seq<string>): string {
    if title == "" && candidates != [] then candidates[0] else title
  }

  /** What the extractor collects. */
  datatype Listing = Listing(title: string, lines: seq<string>, buttons: seq<string>)

  /** A listing with what the visited nodes say added behind it. */
  function After(w: Listing, ns: seq<Json>): Listing {
    Listing(TitleAfter(w.title, Titles(ns)), w.lines + Lines(ns), w.buttons + Buttons(ns))
  }

  lemma AfterNothing(w: Listing)
    ensures After(w, []) == w
  {
  }

  lemma AfterAppend(w: Listing, xs: seq<Json>, ys: seq<Json>)
    ensures After(w, xs + ys) == After(After(w, xs), ys)
  {
    hide Titles, Lines, Buttons;
    ListingsAppend(xs, ys);
    TitlesAreNonEmpty(xs);
    assert w.lines + (Lines(xs) + Lines(ys)) == w.lines + Lines(xs) + Lines(ys);
    assert w.buttons + (Buttons(xs) + Buttons(ys)) == w.buttons + Buttons(xs) + Buttons(ys);
    assert Titles(xs) != [] ==> Titles(xs)[0] in Titles(xs);
  }

  lemma AfterNode(w: Listing, v: Json, rest: seq<Json>)
    ensures After(w, [v] + rest) ==
            After(Listing(TitleAfter(w.title, OwnTitles(v)), w.lines + OwnLines(v), w.buttons + OwnButtons(v)), rest)
  {
    AfterAppend(w, [v], rest);
    hide OwnTitles, OwnLines, OwnButtons;
    assert [v][1..] == [];
    assert Titles([v]) == OwnTitles(v) && Lines([v]) == OwnLines(v) && Buttons([v]) == OwnButtons(v);
  }

  lemma NodesOfFirst(v: Json, c: Json, rest: seq<Json>)
    requires Under([c] + rest, v)
    ensures Under(rest, v)
    ensures NodesOf(v, [c] + rest) == Nodes(c) + NodesOf(v, rest)
  {
    var cs := [c] + rest;
    assert forall i :: 0 <= i < |rest| ==> rest[i] == cs[i + 1];
    assert cs[1..] == rest;
  }

  lemma {:induction false} ListingsAppend(xs: seq<Json>, ys: seq<Json>)
    ensures Titles(xs + ys) == Titles(xs) + Titles(ys)
    ensures Lines(xs + ys) == Lines(xs) + Lines(ys)
    ensures Buttons(xs + ys) == Buttons(xs) + Buttons(ys)
  {
    hide OwnTitles, OwnLines, OwnButtons;
    if xs == [] {
      assert xs + ys == ys;
    } else {
      assert (xs + ys)[1..] == xs[1..] + ys;
      ListingsAppend(xs[1..], ys);
    }
  }

  lemma {:induction false} TitlesAreNonEmpty(ns: seq<Json>)
    ensures forall t :: t in Titles(ns) ==> t != ""
  {
    hide Text;
    if ns != [] {
      TitlesAreNonEmpty(ns[1..]);
    }
  }

  // ---- The extractor ----

  class ParsedLayout {
    var title: string
    var lines: seq<string>
    var buttons: seq<string>

    constructor ()
      ensures title == "" && lines == [] && buttons == []
    {
      title, lines, buttons := "", [], [];
    }

    function Content(): Listing
      reads this
    {
      Listing(title, lines, buttons)
    }

    method ExtractTitle(v: Json)
      modifies this`title
      ensures title == TitleAfter(old(title), OwnTitles(v))
    {
      if title == "" && Text(v, "title") != "" {
        title := Text(v, "title");
      }
      if title == "" && Text(v, "subtitle") != "" {
        title := Text(v, "subtitle");
      }
      if title == "" && Text(v, "label") != "" {
        title := Text(v, "label");
      }
      if title == "" && Text(v, "component") != "" {
        title := Text(v, "component");
      }
    }

    method ExtractButtons(v: Json)
      modifies this`buttons
      ensures buttons == old(buttons) + OwnButtons(v)
    {
      hide ButtonText, Get, ButtonsUnder;
      var b := Get(v, "buttons");
      if b == None {
        return;
      }
      var i := 0;
      ButtonsUnderStep(b.value, BUTTON_KEYS, 0);
      while i < |BUTTON_KEYS|
        invariant i <= |BUTTON_KEYS|
        invariant buttons + ButtonsUnder(b.value, BUTTON_KEYS[i..]) == old(buttons) + ButtonsUnder(b.value, BUTTON_KEYS)
      {
        var button := Get(b.value, BUTTON_KEYS[i]);
        ButtonsUnderStep(b.value, BUTTON_KEYS, i);
        if button.Some? && ButtonText(button.value) != "" {
          buttons := buttons + [ButtonText(button.value)];
        }
        i := i + 1;
      }
    }

    method ExtractParagraphs(paragraphs: seq<Json>)
      modifies this`lines
      ensures lines == old(lines) + ParagraphLines(paragraphs)
    {
      hide ParagraphText;
      var i := 0;
      while i < |paragraphs|
        invariant i <= |paragraphs|
        invariant lines + ParagraphLines(paragraphs[i..]) == old(lines) + ParagraphLines(paragraphs)
      {
        var text := ParagraphText(paragraphs[i]);
        assert paragraphs[i..][1..] == paragraphs[i + 1..];
        if text != "" {
          lines := lines + [text];
        }
        i := i + 1;
      }
    }

    method PushLine(text: string)
      modifies this`lines
      ensures lines == old(lines) + NonEmpty(text)
    {
      if text != "" {
        lines := lines + [text];
      }
    }

    method PushNotification(text: string)
      modifies this`lines
      ensures lines == old(lines) + Notification(text)
    {
      if text != "" {
        lines := lines + ["[" + text + "]"];
      }
    }

    method ExtractLines(v: Json)
      modifies this`lines
      ensures lines == old(lines) + OwnLines(v)
    {
      hide ParagraphLines, NonEmpty, Notification, Get, Text;
      ghost var before := lines;
      var paragraphs := Get(v, "paragraphs");
      if paragraphs.Some? && paragraphs.value.Arr? {
        ExtractParagraphs(paragraphs.value.items);
      }
      ghost var ps := match paragraphs case Some(Arr(ps)) => ParagraphLines(ps) case _ => [];
      assert lines == before + ps;
      PushLine(Text(v, "description"));
      PushLine(Text(v, "text"));
      PushLine(Text(v, "value"));
      assert lines ==
        before + (ps + NonEmpty(Text(v, "description")) + NonEmpty(Text(v, "text")) + NonEmpty(Text(v, "value")));
      PushNotification(Text(v, "notification"));
    }

    /** Adds what the tree says: everything before stays, in place; a title once set stays too. */
    method ExtractFromValue(v: Json)
      modifies this
      ensures Content() == After(old(Content()), Nodes(v))
      decreases v, 2
    {
      hide OwnTitles, OwnLines, OwnButtons, Titles, Lines, Buttons, After, SubObjects, SubItems;
      AfterNothing(Content());
      if !v.Obj? {
        return;
      }
      var subs, items := SubObjects(v, SUB_KEYS), SubItems(v, LIST_KEYS);
      NodesOfAppend(v, subs, items);
      AfterNode(Content(), v, NodesOf(v, subs) + NodesOf(v, items));
      ExtractTitle(v);
      ExtractButtons(v);
      ExtractLines(v);
      AfterAppend(Content(), NodesOf(v, subs), NodesOf(v, items));
      ExtractSubObjects(v);
      ExtractLists(v);
    }

    /** The known sub-objects of a node. */
    method ExtractSubObjects(v: Json)
      modifies this
      ensures Content() == After(old(Content()), NodesOf(v, SubObjects(v, SUB_KEYS)))
      decreases v, 1
    {
      hide After, Nodes, NodesOf, SubObjects;
      SubNothing(v);
      assert SUB_KEYS[0..] == SUB_KEYS;
      ghost var all := After(Content(), NodesOf(v, SubObjects(v, SUB_KEYS)));
      var i := 0;
      while i < |SUB_KEYS|
        invariant i <= |SUB_KEYS|
        invariant After(Content(), NodesOf(v, SubObjects(v, SUB_KEYS[i..]))) == all
      {
        var sub := Get(v, SUB_KEYS[i]);
        ghost var rest := SubObjects(v, SUB_KEYS[i + 1..]);
        SubObjectsStep(v, SUB_KEYS, i);
        if sub.Some? {
          NodesOfFirst(v, sub.value, rest);
          AfterAppend(Content(), Nodes(sub.value), NodesOf(v, rest));
          ExtractFromValue(sub.value);
        }
        i := i + 1;
      }
      assert SUB_KEYS[i..] == [];
      NodesOfNothing(v);
      AfterNothing(Content());
    }

    /** The objects in the known arrays of a node. */
    method ExtractLists(v: Json)
      modifies this
      ensures Content() == After(old(Content()), NodesOf(v, SubItems(v, LIST_KEYS)))
      decreases v, 1
    {
      hide After, Nodes, NodesOf, SubItems;
      SubNothing(v);
      assert LIST_KEYS[0..] == LIST_KEYS;
      ghost var all := After(Content(), NodesOf(v, SubItems(v, LIST_KEYS)));
      var i := 0;
      while i < |LIST_KEYS|
        invariant i <= |LIST_KEYS|
        invariant After(Content(), NodesOf(v, SubItems(v, LIST_KEYS[i..]))) == all
      {
        var list := Get(v, LIST_KEYS[i]);
        ghost var rest := SubItems(v, LIST_KEYS[i + 1..]);
        SubItemsStep(v, LIST_KEYS, i);
        if list.Some? && list.value.Arr? {
          NodesOfAppend(v, list.value.items, rest);
          AfterAppend(Content(), NodesOf(v, list.value.items), NodesOf(v, rest));
          ExtractItems(v, list.value.items);
        }
        i := i + 1;
      }
      assert LIST_KEYS[i..] == [];
      NodesOfNothing(v);
      AfterNothing(Content());
    }

    method ExtractItems(v: Json, items: seq<Json>)
      requires Under(items, v)
      modifies this
      ensures Content() == After(old(Content()), NodesOf(v, items))
      decreases v, 0
    {
      hide After, Nodes, NodesOf;
      assert items[0..] == items;
      ghost var all := After(Content(), NodesOf(v, items));
      var i := 0;
      while i < |items|
        invariant i <= |items|
        invariant Under(items[i..], v)
        invariant After(Content(), NodesOf(v, items[i..])) == all
      {
        assert items[i..] == [items[i]] + items[i + 1..];
        NodesOfFirst(v, items[i], items[i + 1..]);
        AfterAppend(Content(), Nodes(items[i]), NodesOf(v, items[i + 1..]));
        ExtractFromValue(items[i]);
        i := i + 1;
      }
      assert items[i..] == [];
      NodesOfNothing(v);
      AfterNothing(Content());
    }
  }

  lemma SubObjectsStep(v: Json, keys: seq<string>, i: nat)
    requires i < |keys|
    ensures var sub := Get(v, keys[i]); var rest := SubObjects(v, keys[i + 1..]);
      SubObjects(v, keys[i..]) == if sub.Some? then [sub.value] + rest else rest
  {
    assert keys[i..][1..] == keys[i + 1..];
  }

  lemma SubItemsStep(v: Json, keys: seq<string>, i: nat)
    requires i < |keys|
    ensures var list := Get(v, keys[i]); var rest := SubItems(v, keys[i + 1..]);
      SubItems(v, keys[i..]) == if list.Some? && list.value.Arr? then list.value.items + rest else rest
  {
    assert keys[i..][1..] == keys[i + 1..];
  }

  lemma SubNothing(v: Json)
    ensures SubObjects(v, []) == [] && SubItems(v, []) == []
  {
  }

  lemma NodesOfNothing(v: Json)
    ensures NodesOf(v, []) == []
  {
  }

  lemma UnderAppend(v: Json, cs: seq<Json>, ds: seq<Json>)
    requires Under(cs, v) && Under(ds, v)
    ensures Under(cs + ds, v) && (cs != [] ==> Under(cs[1..], v))
  {
  }

  lemma {:induction false} NodesOfAppend(v: Json, cs: seq<Json>, ds: seq<Json>)
    requires Under(cs, v) && Under(ds, v)
    ensures Under(cs + ds, v) && NodesOf(v, cs + ds) == NodesOf(v, cs) + NodesOf(v, ds)
  {
    hide Nodes, Under;
    UnderAppend(v, cs, ds);
    if cs == [] {
      assert cs + ds == ds;
    } else {
      NodesOfAppend(v, cs[1..], ds);
      assert (cs + ds)[1..] == cs[1..] + ds && (cs + ds)[0] == cs[0];
    }
  }

  // ---- Main results ----

  /** From nothing, the title is the first non-empty candidate in preorder; a title given is kept. */
  lemma TitleIsFirstCandidate(w: Listing, v: Json)
    ensures var t := After(w, Nodes(v)).title; var cs := Titles(Nodes(v));
      && (w.title != "" ==> t == w.title)
      && (w.title == "" && cs != [] ==> t == cs[0] && t != "")
      && (t == "" <==> w.title == "" && cs == [])
  {
    TitlesAreNonEmpty(Nodes(v));
    assert Titles(Nodes(v)) != [] ==> Titles(Nodes(v))[0] in Titles(Nodes(v));
  }

  // ---- What a screen says, by the members of its objects ----

  type Members = map<string, Json>

  /** A member that is a non-empty text, as a list of at most one. */
  function TextAt(m: Members, key: string): seq<string> {
    if key in m && m[key].Str? && m[key].s != "" then [m[key].s] else []
  }

  function ValueAt(m: Members, key: string): seq<Json> {
    if key in m then [m[key]] else []
  }

  function ItemsAt(m: Members, key: string): seq<Json> {
    if key in m && m[key].Arr? then m[key].items else []
  }

  /** The parts of a screen, in the order they are looked at. */
  function Parts(m: Members): seq<Json> {
    ValueAt(m, "content") + ValueAt(m, "page") + ValueAt(m, "inner") + ItemsAt(m, "items") + ItemsAt(m, "pages")
  }

  /** What a screen says itself, without its parts. */
  function Own(m: Members): Json {
    Obj(m - {"content", "page", "inner", "items", "pages"})
  }

  /** The listing after the values, one after the other. */
  function InOrder(w: Listing, vs: seq<Json>): Listing
    decreases |vs|
  {
    if vs == [] then w else InOrder(After(w, Nodes(vs[0])), vs[1..])
  }

  lemma ChildrenAreParts(m: Members)
    ensures Children(Obj(m)) == Parts(m)
  {
    SubObjectsOf(m, ["content", "page", "inner"]);
    SubObjectsOf(m, ["page", "inner"]);
    SubObjectsOf(m, ["inner"]);
    SubItemsOf(m, ["items", "pages"]);
    SubItemsOf(m, ["pages"]);
    SubNothing(Obj(m));
    hide SubObjects, SubItems;
    assert ["content", "page", "inner"][1..] == ["page", "inner"] && ["page", "inner"][1..] == ["inner"];
    assert ["inner"][1..] == [] && ["items", "pages"][1..] == ["pages"] && ["pages"][1..] == [];
  }

  lemma SubObjectsOf(m: Members, keys: seq<string>)
    requires keys != []
    ensures SubObjects(Obj(m), keys) == ValueAt(m, keys[0]) + SubObjects(Obj(m), keys[1..])
  {
  }

  lemma SubItemsOf(m: Members, keys: seq<string>)
    requires keys != []
    ensures SubItems(Obj(m), keys) == ItemsAt(m, keys[0]) + SubItems(Obj(m), keys[1..])
  {
  }

  lemma {:induction false} NodesInOrder(w: Listing, v: Json, cs: seq<Json>)
    requires Under(cs, v)
    ensures After(w, NodesOf(v, cs)) == InOrder(w, cs)
    decreases |cs|
  {
    hide After, Nodes;
    if cs == [] {
      AfterNothing(w);
    } else {
      AfterAppend(w, Nodes(cs[0]), NodesOf(v, cs[1..]));
      NodesInOrder(After(w, Nodes(cs[0])), v, cs[1..]);
    }
  }

  lemma SameMember(m: Members, key: string)
    requires key !in {"content", "page", "inner", "items", "pages"}
    ensures Get(Own(m), key) == Get(Obj(m), key) && Text(Own(m), key) == Text(Obj(m), key)
  {
  }

  lemma OwnMembers(m: Members)
    ensures OwnTitles(Own(m)) == OwnTitles(Obj(m))
    ensures OwnLines(Own(m)) == OwnLines(Obj(m))
    ensures OwnButtons(Own(m)) == OwnButtons(Obj(m))
  {
    hide ParagraphLines, ButtonsUnder, NonEmpty, Notification, Get, Text, Own;
    SameMember(m, "title");
    SameMember(m, "subtitle");
    SameMember(m, "label");
    SameMember(m, "component");
    SameMember(m, "paragraphs");
    SameMember(m, "description");
    SameMember(m, "text");
    SameMember(m, "value");
    SameMember(m, "notification");
    SameMember(m, "buttons");
  }

  lemma OwnHasNoParts(m: Members)
    ensures Nodes(Own(m)) == [Own(m)]
  {
    var own := m - {"content", "page", "inner", "items", "pages"};
    ChildrenAreParts(own);
    hide Children;
    assert Parts(own) == [];
  }

  /**
   * The listing of any object: first what it says itself, then its content, page and inner part, then the
   * items of its items and of its pages, each wholly before the next.
   */
  lemma ScreenInOrder(w: Listing, m: Members)
    ensures After(w, Nodes(Obj(m))) == InOrder(After(w, Nodes(Own(m))), Parts(m))
  {
    hide After, Children, OwnTitles, OwnLines, OwnButtons, Own;
    var v := Obj(m);
    ChildrenAreParts(m);
    OwnMembers(m);
    OwnHasNoParts(m);
    AfterNode(w, v, NodesOf(v, Parts(m)));
    AfterNode(w, Own(m), []);
    AfterNode(w, v, []);
    assert [Own(m)] + [] == [Own(m)] && [v] + [] == [v];
    AfterAppend(w, [v], NodesOf(v, Parts(m)));
    NodesInOrder(After(w, [v]), v, Parts(m));
  }

  lemma OwnListing(w: Listing, m: Members)
    ensures After(w, Nodes(Own(m))) ==
      Listing(TitleAfter(w.title, OwnTitles(Obj(m))), w.lines + OwnLines(Obj(m)), w.buttons + OwnButtons(Obj(m)))
  {
    hide After, OwnTitles, OwnLines, OwnButtons, Own;
    OwnMembers(m);
    OwnHasNoParts(m);
    AfterNode(w, Own(m), []);
    assert [Own(m)] + [] == [Own(m)];
    var v := Obj(m);
    AfterNothing(Listing(TitleAfter(w.title, OwnTitles(v)), w.lines + OwnLines(v), w.buttons + OwnButtons(v)));
  }

  lemma TextIsMember(m: Members, key: string)
    ensures NonEmpty(Text(Obj(m), key)) == TextAt(m, key)
  {
  }

  /** The title of a screen: a title already there, or its title, else subtitle, else label, else component. */
  lemma TitleOfScreen(w: Listing, m: Members)
    ensures After(w, Nodes(Own(m))).title ==
      if w.title != "" then w.title
      else if TextAt(m, "title") != [] then TextAt(m, "title")[0]
      else if TextAt(m, "subtitle") != [] then TextAt(m, "subtitle")[0]
      else if TextAt(m, "label") != [] then TextAt(m, "label")[0]
      else if TextAt(m, "component") != [] then TextAt(m, "component")[0]
      else ""
  {
    OwnListing(w, m);
    TextIsMember(m, "title");
    TextIsMember(m, "subtitle");
    TextIsMember(m, "label");
    TextIsMember(m, "component");
    hide After, Nodes, Own, NonEmpty, Text, TextAt, OwnLines, OwnButtons;
  }

  /** The text of one button: of an object its text, or a plain text. */
  function ButtonAt(m: Members, key: string): seq<string> {
    if key in m && m[key].Obj? then TextAt(m[key].members, "text") else TextAt(m, key)
  }

  lemma ButtonIsMember(m: Members, keys: seq<string>)
    requires keys != []
    ensures ButtonsUnder(Obj(m), keys) == ButtonAt(m, keys[0]) + ButtonsUnder(Obj(m), keys[1..])
  {
  }

  lemma ThreeButtons(b: Members)
    ensures ButtonsUnder(Obj(b), BUTTON_KEYS) == ButtonAt(b, "left") + ButtonAt(b, "middle") + ButtonAt(b, "right")
  {
    ButtonIsMember(b, ["left", "middle", "right"]);
    ButtonIsMember(b, ["middle", "right"]);
    ButtonIsMember(b, ["right"]);
    hide ButtonAt, ButtonText, Get, ButtonsUnder;
    assert ["left", "middle", "right"][1..] == ["middle", "right"];
    assert ["middle", "right"][1..] == ["right"] && ["right"][1..] == [];
    NoMoreButtons(b);
  }

  lemma NoMoreButtons(b: Members)
    ensures ButtonsUnder(Obj(b), []) == []
  {
  }

  /** The buttons of a screen: left, middle, right, those that have a text. */
  lemma ButtonsOfScreen(w: Listing, m: Members)
    ensures After(w, Nodes(Own(m))).buttons ==
      if "buttons" in m && m["buttons"].Obj? then
        var b := m["buttons"].members;
        w.buttons + (ButtonAt(b, "left") + ButtonAt(b, "middle") + ButtonAt(b, "right"))
      else w.buttons
  {
    hide After, Nodes, Own, OwnLines, OwnTitles, ButtonsUnder, ButtonAt;
    OwnListing(w, m);
    if "buttons" in m && m["buttons"].Obj? {
      ThreeButtons(m["buttons"].members);
    } else {
      NoButtons(m);
      assert w.buttons + [] == w.buttons;
    }
  }

  lemma NoButtons(m: Members)
    requires "buttons" in m ==> !m["buttons"].Obj?
    ensures OwnButtons(Obj(m)) == []
  {
    if "buttons" in m {
      NoButtonsUnder(m["buttons"], BUTTON_KEYS);
    }
  }

  lemma {:induction false} NoButtonsUnder(b: Json, keys: seq<string>)
    requires !b.Obj?
    ensures ButtonsUnder(b, keys) == []
  {
    if keys != [] {
      NoButtonsUnder(b, keys[1..]);
    }
  }

  /** The lines of a screen: its paragraphs, then description, text, value, and the notification in brackets. */
  lemma LinesOfScreen(w: Listing, m: Members)
    ensures After(w, Nodes(Own(m))).lines ==
      w.lines + (ParagraphsAt(ItemsAt(m, "paragraphs"))
                 + TextAt(m, "description") + TextAt(m, "text") + TextAt(m, "value")
                 + (if TextAt(m, "notification") != [] then ["[" + TextAt(m, "notification")[0] + "]"] else []))
  {
    OwnListing(w, m);
    TextIsMember(m, "description");
    TextIsMember(m, "text");
    TextIsMember(m, "value");
    TextIsMember(m, "notification");
    ParagraphsAreLines(ItemsAt(m, "paragraphs"));
    hide After, Nodes, Own, NonEmpty, Text, TextAt, OwnTitles, OwnButtons, ParagraphsAt;
    NotificationOf(m);
    assert ParagraphLines([]) == [];
  }

  lemma NotificationOf(m: Members)
    ensures Notification(Text(Obj(m), "notification")) ==
      if TextAt(m, "notification") != [] then ["[" + TextAt(m, "notification")[0] + "]"] else []
  {
  }

  /** The lines of paragraphs: a text is a line, and so are the texts of a list with blanks between them. */
  function ParagraphsAt(ps: seq<Json>): seq<string> {
    if ps == [] then [] else ParagraphAt(ps[0]) + ParagraphsAt(ps[1..])
  }

  function ParagraphAt(p: Json): seq<string> {
    match p
    case Str(s) => if s == "" then [] else [s]
    case Arr(items) => if Joined(Words(items)) == "" then [] else [Joined(Words(items))]
    case _ => []
  }

  lemma {:induction false} ParagraphsAreLines(ps: seq<Json>)
    ensures ParagraphLines(ps) == ParagraphsAt(ps)
  {
    hide Joined, Words;
    if ps != [] {
      ParagraphsAreLines(ps[1..]);
    }
  }

  /** A text cut at its blanks. */
  function SplitAtBlanks(s: string): (r: seq<string>)
    ensures r != []
  {
    if s == "" then [""]
    else
      var rest := SplitAtBlanks(s[1..]);
      if s[0] == ' ' then [""] + rest else [[s[0]] + rest[0]] + rest[1..]
  }

  lemma {:induction false} SplitBehindWord(word: string, s: string)
    requires ' ' !in word
    ensures SplitAtBlanks(word) == [word]
    ensures SplitAtBlanks(word + " " + s) == [word] + SplitAtBlanks(s)
  {
    if word == "" {
      assert "" + " " + s == " " + s && (" " + s)[1..] == s;
    } else {
      SplitBehindWord(word[1..], s);
      assert (word + " " + s)[1..] == word[1..] + " " + s;
      assert [word[0]] + word[1..] == word;
    }
  }

  lemma {:induction false} SplitJoined(words: seq<string>)
    requires words != [] && forall i :: 0 <= i < |words| ==> ' ' !in words[i]
    ensures SplitAtBlanks(Joined(words)) == words
  {
    hide SplitAtBlanks;
    if |words| == 1 {
      SplitBehindWord(words[0], "");
    } else {
      SplitJoined(words[1..]);
      SplitBehindWord(words[0], Joined(words[1..]));
      assert [words[0]] + words[1..] == words;
    }
  }

  /** The words of a paragraph are the texts in its list: what is no text is passed over, no text is lost. */
  lemma {:induction false} WordsAreTexts(items: seq<Json>, more: seq<Json>)
    ensures Words(items + more) == Words(items) + Words(more)
    ensures |items| == 1 ==> Words(items) == if items[0].Str? then [items[0].s] else []
  {
    if items == [] {
      assert items + more == more;
    } else {
      assert (items + more)[1..] == items[1..] + more;
      WordsAreTexts(items[1..], more);
    }
  }

  function Texts(words: seq<string>): (r: seq<Json>)
    ensures |r| == |words| && forall i :: 0 <= i < |r| ==> r[i] == Str(words[i])
  {
    seq(|words|, i requires 0 <= i < |words| => Str(words[i]))
  }

  lemma {:induction false} WordsOfTexts(words: seq<string>)
    ensures Words(Texts(words)) == words
  {
    if words != [] {
      WordsOfTexts(words[1..]);
      assert Texts(words)[1..] == Texts(words[1..]);
      assert [words[0]] + words[1..] == words;
    }
  }

  /** A paragraph of words without blanks adds exactly one line, and the line cut at its blanks is the words. */
  lemma ParagraphLine(w: Listing, words: seq<string>)
    requires words != [] && words != [""] && forall i :: 0 <= i < |words| ==> ' ' !in words[i]
    ensures var t := After(w, Nodes(Obj(map["paragraphs" := Arr([Arr(Texts(words))])])));
      && |t.lines| == |w.lines| + 1 && w.lines <= t.lines
      && SplitAtBlanks(t.lines[|w.lines|]) == words
      && t.title == w.title && t.buttons == w.buttons
  {
    hide After, Nodes, Joined, Words, SplitAtBlanks, Texts, Parts, Own, TextAt, ItemsAt, ParagraphsAt;
    var m: Members := map["paragraphs" := Arr([Arr(Texts(words))])];
    OneParagraph(words);
    OnlyParagraphs(m);
    ScreenInOrder(w, m);
    LinesOfScreen(w, m);
    TitleOfScreen(w, m);
    ButtonsOfScreen(w, m);
  }

  lemma OnlyParagraphs(m: Members)
    requires m.Keys == {"paragraphs"} && m["paragraphs"].Arr?
    ensures Parts(m) == [] && ItemsAt(m, "paragraphs") == m["paragraphs"].items
    ensures forall key :: key != "paragraphs" ==> TextAt(m, key) == []
  {
  }

  lemma OneParagraph(words: seq<string>)
    requires words != [] && words != [""] && forall i :: 0 <= i < |words| ==> ' ' !in words[i]
    ensures ParagraphsAt([Arr(Texts(words))]) == [Joined(words)] && SplitAtBlanks(Joined(words)) == words
  {
    WordsOfTexts(words);
    SplitJoined(words);
    BlankSplit();
    SingleParagraph(Arr(Texts(words)));
    hide Joined, Words, SplitAtBlanks, Texts, ParagraphsAt;
  }

  lemma SingleParagraph(p: Json)
    ensures ParagraphsAt([p]) == ParagraphAt(p)
  {
    hide ParagraphAt;
    assert [p][1..] == [];
  }

  lemma BlankSplit()
    ensures SplitAtBlanks("") == [""]
  {
  }

  // ---- Token lists ----

  function ConcatTokens(tokens: seq<string>): string {
    if tokens == [] then "" else tokens[0] + ConcatTokens(tokens[1..])
  }

  /**
   * The layout of a list of tokens, given the JSON parser: the tree the joined tokens form, or
   * the raw tokens as lines when they form none.
   */
  method ParseLayoutTokens(tokens: seq<string>, parse: string -> Option<Json>) returns (layout: ParsedLayout)
    ensures fresh(layout)
    ensures var text := ConcatTokens(tokens);
      layout.Content() ==
        if text == "" then Listing("", [], [])
        else match parse(text)
          case Some(v) => After(Listing("", [], []), Nodes(v))
          case None => Listing("", tokens, [])
  {
    hide After, Nodes;
    layout := new ParsedLayout();
    var text := Joining(tokens);
    if text == "" {
      return;
    }
    match parse(text) {
      case Some(v) => layout.ExtractFromValue(v);
      case None => layout.lines := tokens;
    }
  }

  method Joining(tokens: seq<string>) returns (text: string)
    ensures text == ConcatTokens(tokens)
  {
    text := "";
    var i := 0;
    assert tokens[0..] == tokens;
    while i < |tokens|
      invariant i <= |tokens|
      invariant text + ConcatTokens(tokens[i..]) == ConcatTokens(tokens)
    {
      assert tokens[i..][1..] == tokens[i + 1..];
      assert text + tokens[i] + ConcatTokens(tokens[i + 1..]) == text + ConcatTokens(tokens[i..]);
      text := text + tokens[i];
      i := i + 1;
    }
  }

  /** The text that is parsed is all tokens, one behind the other. */
  lemma {:induction false} TokensAreJoined(xs: seq<string>, ys: seq<string>)
    ensures ConcatTokens(xs + ys) == ConcatTokens(xs) + ConcatTokens(ys)
    ensures |xs| == 1 ==> ConcatTokens(xs) == xs[0]
  {
    if xs == [] {
      assert xs + ys == ys;
    } else {
      assert (xs + ys)[1..] == xs[1..] + ys;
      TokensAreJoined(xs[1..], ys);
    }
  }
}
