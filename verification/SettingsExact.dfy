/** What a settings field says and which edits are taken, token by token. */
module SettingsExact {
  import opened Text
  import opened Numbers
  import opened Settings

  /** The item is one this level of settings has, and no earlier one has its name. */
  predicate Known(items: Table, i: int, net: bool) {
    0 <= i < |items| && (net || !items[i].netOnly) && forall j :: 0 <= j < i ==> items[j].name != items[i].name
  }

  /** The text stands for a value within the item's bounds. */
  ghost predicate Stands(item: Item, text: string, v: Value) {
    match item
    case Setting(_, lo, hi, _) => v.Num? && lo <= v.n <= hi && Denotes(text, v.n)
    case Flood(_, nlo, nhi, slo, shi, offOk, _) =>
      || (offOk && v == Off && text == "off")
      || (v.Pair? && nlo <= v.a <= nhi && slo <= v.b <= shi
          && exists x, y :: text == x + ":" + y && Denotes(x, v.a) && Denotes(y, v.b))
  }

  lemma ColonAt(x: string, y: string)
    requires Digits(x)
    ensures Find(x + ":" + y, ':') == |x| && (x + ":" + y)[..|x|] == x && (x + ":" + y)[|x| + 1..] == y
  {
    assert ':' !in x;
    assert x + ":" + y == x + (":" + y);
    FindAfter(x, ':', ":" + y);
    assert Find(":" + y, ':') == 0;
  }

  lemma OffIsNoPair(x: string, y: string)
    requires Digits(x)
    ensures x + ":" + y != "off"
  {
    assert (x + ":" + y)[0] == x[0];
  }

  lemma ValueReads(item: Item, text: string, v: Value)
    requires Stands(item, text, v)
    ensures ValueOf(item, text) == Some(v)
  {
    hide Find, Digits, Val;
    if item.Flood? && v.Pair? {
      var x, y :| text == x + ":" + y && Denotes(x, v.a) && Denotes(y, v.b);
      ColonAt(x, y);
      OffIsNoPair(x, y);
    }
  }

  /** A value is read from exactly the texts that stand for it. */
  lemma ValueExactly(item: Item, text: string, v: Value)
    ensures ValueOf(item, text) == Some(v) <==> Stands(item, text, v)
  {
    hide Find, Digits, Val;
    if Stands(item, text, v) {
      ValueReads(item, text, v);
    }
    if ValueOf(item, text) == Some(v) && item.Flood? && v.Pair? {
      var colon := Find(text, ':');
      assert text == text[..colon] + ":" + text[colon + 1..];
      assert Denotes(text[..colon], v.a) && Denotes(text[colon + 1..], v.b);
    }
  }

  // ---- a field -----------------------------------------------------------------------------

  /** The token gives the item this value. */
  ghost predicate Gives(items: Table, tok: string, net: bool, i: int, v: Value) {
    Known(items, i, net) && exists text :: tok == items[i].name + "=" + text && Stands(items[i], text, v)
  }

  /** The last token that gives the item any value. */
  ghost predicate LastGives(items: Table, toks: seq<string>, net: bool, i: int, k: int, v: Value) {
    0 <= k < |toks| && Gives(items, toks[k], net, i, v) && forall j, u :: k < j < |toks| ==> !Gives(items, toks[j], net, i, u)
  }

  lemma {:induction false} PositionIs(items: Table, i: nat)
    requires i < |items| && forall j :: 0 <= j < i ==> items[j].name != items[i].name
    ensures Position(items, items[i].name) == i
  {
  }

  /** What one token does to the value of an item. */
  lemma TakeExactly(items: Table, o: Overrides, tok: string, net: bool, i: nat)
    requires PlainNames(items)
    ensures var r := Take(items, o, tok, net);
            && (forall v :: Gives(items, tok, net, i, v) ==> i in r.vals && r.vals[i] == v)
            && ((forall v :: !Gives(items, tok, net, i, v)) ==> (i in r.vals <==> i in o.vals) && (i in o.vals ==> r.vals[i] == o.vals[i]))
  {
    hide Stands, ValueOf, Find, Position;
    var eq := Find(tok, '=');
    forall v | Gives(items, tok, net, i, v) ensures var r := Take(items, o, tok, net); i in r.vals && r.vals[i] == v {
      var text :| tok == items[i].name + "=" + text && Stands(items[i], text, v);
      NameCut(items[i].name, text);
      PositionIs(items, i);
      ValueExactly(items[i], text, v);
    }
    if (forall v :: !Gives(items, tok, net, i, v)) && 0 < eq < |tok| && ItemIndex(items, tok[..eq], net) == Some(i)
       && ValueOf(items[i], tok[eq + 1..]).Some? {
      var v := ValueOf(items[i], tok[eq + 1..]).value;
      ValueExactly(items[i], tok[eq + 1..], v);
      assert tok == items[i].name + "=" + tok[eq + 1..];
      assert !Gives(items, tok, net, i, v);
      assert Known(items, i, net);
    }
  }

  lemma NameCut(name: string, text: string)
    requires name != "" && '=' !in name
    ensures Find(name + "=" + text, '=') == |name| && (name + "=" + text)[..|name|] == name
    ensures (name + "=" + text)[|name| + 1..] == text
  {
    assert name + "=" + text == name + ("=" + text);
    FindAfter(name, '=', "=" + text);
    assert Find("=" + text, '=') == 0;
  }

  /** A field says of an item exactly what the last token says that gives it a value; tokens that do not
      are as if they were not there. */
  lemma {:induction false} ReadExactly(items: Table, toks: seq<string>, net: bool, i: nat, v: Value)
    requires PlainNames(items)
    ensures i in Read(items, toks, net).vals && Read(items, toks, net).vals[i] == v
            <==> exists k :: LastGives(items, toks, net, i, k, v)
  {
    hide Gives, PlainNames;
    if toks != [] {
      var n := |toks| - 1;
      var init := toks[..n];
      assert toks == init + [toks[n]];
      ReadExactly(items, init, net, i, v);
      TakeExactly(items, Read(items, init, net), toks[n], net, i);
      if u :| Gives(items, toks[n], net, i, u) {
        assert LastGives(items, toks, net, i, n, u);
        if k :| LastGives(items, toks, net, i, k, v) {
          assert k == n;
        }
      } else {
        forall k ensures LastGives(items, toks, net, i, k, v) <==> LastGives(items, init, net, i, k, v) {
          NotTheLast(items, init, toks[n], net, i, k, v);
        }
      }
    }
  }

  lemma NotTheLast(items: Table, init: seq<string>, tok: string, net: bool, i: nat, k: int, v: Value)
    requires forall u :: !Gives(items, tok, net, i, u)
    ensures LastGives(items, init + [tok], net, i, k, v) <==> LastGives(items, init, net, i, k, v)
  {
    hide Gives;
    var toks := init + [tok];
    assert forall j :: 0 <= j < |init| ==> init[j] == toks[j];
  }

  // ---- an edit -----------------------------------------------------------------------------

  /** What an edit asks for, when it is one: the item dropped, or a value. */
  ghost predicate AsksFor(item: Item, value: string, want: Option<Value>) {
    match want
    case None => value == "default"
    case Some(v) => value != "default" && Stands(item, value, v)
  }

  /** An edit is refused for its name exactly when this level of settings has no such item, for its value
      exactly when that is neither `default` nor within bounds, and else only for want of room. */
  lemma EditAccepts(items: Table, settings: string, cap: nat, net: bool, name: string, value: string)
    ensures var r := Edit(items, settings, cap, net, name, value);
            && (r == Err(UnknownName) <==> forall i :: Known(items, i, net) ==> items[i].name != name)
            && (r == Err(BadValue) <==>
                  exists i :: Known(items, i, net) && items[i].name == name && forall want :: !AsksFor(items[i], value, want))
            && (forall i, want :: Known(items, i, net) && items[i].name == name && AsksFor(items[i], value, want) ==>
                  var out := Edited(Split(settings, ','), name, NewToken(name, want));
                  r == if |out| < cap && |out| <= 512 then Ok(out) else Err(Full))
  {
    hide Stands, ValueOf, Split, Edited, Position;
    var at := Position(items, name);
    forall i | Known(items, i, net) && items[i].name == name ensures ItemIndex(items, name, net) == Some(i) {
      PositionIs(items, i);
    }
    var idx := ItemIndex(items, name, net);
    if idx.Some? {
      var i := idx.value;
      assert Known(items, i, net);
      forall v ensures ValueOf(items[i], value) == Some(v) <==> Stands(items[i], value, v) {
        ValueExactly(items[i], value, v);
      }
      if Wanted(items[i], value).Some? {
        assert AsksFor(items[i], value, Wanted(items[i], value).value);
      }
    }
  }
}
