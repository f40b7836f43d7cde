/** The product page's helpers (public/js/products.js): HTML escaping, the
    id-to-product cache rebuilt on every listing, and the edit dialog's
    lookup in that cache. */
module ProductsPage {
  import opened Wrappers
  import opened Text
  import opened Documents

  const NotFound := "Producto no encontrado"

  /** The five characters `escapeHtml` replaces. */
  predicate IsSpecial(c: char)
  {
    c == '&' || c == '<' || c == '>' || c == '"' || c == '\''
  }

  /** The entity each special character becomes. */
  function Entity(c: char): string
  {
    match c
    case '&' => "&amp;"
    case '<' => "&lt;"
    case '>' => "&gt;"
    case '"' => "&quot;"
    case '\'' => "&#039;"
    case _ => [c]
  }

  /** The chain of `replace` calls, in the source's order: `&` first. */
  function ReplaceChain(s: string): string
  {
    ReplaceAll(ReplaceAll(ReplaceAll(ReplaceAll(ReplaceAll(s, '&', "&amp;"), '<', "&lt;"), '>', "&gt;"), '"', "&quot;"), '\'', "&#039;")
  }

  /** `escapeHtml(unsafe)`; `None` stands for `null` or `undefined`. It is
      the one-pass escape of every character. */
  function EscapeHtml(unsafe: Option<string>): (r: string)
    ensures r == if unsafe.None? then [] else EscapeEach(unsafe.value)
  {
    if unsafe.None? || unsafe.value == [] then []
    else
      EscapeHtmlIsPerChar(unsafe.value);
      ReplaceChain(unsafe.value)
  }

  /** The reference definition: every character replaced by its entity, in
      one pass. */
  function EscapeEach(s: string): string
  {
    if s == [] then [] else Entity(s[0]) + EscapeEach(s[1..])
  }

  /** `p` occurs in `t` at position `i`. */
  predicate StartsAt(t: string, i: int, p: string)
  {
    0 <= i && i + |p| <= |t| && t[i..i + |p|] == p
  }

  /** HTML entity decoding of the five entities, the partner of escaping. */
  function Unescape(t: string): string
    decreases |t|
  {
    if t == [] then []
    else if t[0] != '&' then [t[0]] + Unescape(t[1..])
    else if StartsAt(t, 0, "&amp;") then "&" + Unescape(t[5..])
    else if StartsAt(t, 0, "&lt;") then "<" + Unescape(t[4..])
    else if StartsAt(t, 0, "&gt;") then ">" + Unescape(t[4..])
    else if StartsAt(t, 0, "&quot;") then "\"" + Unescape(t[6..])
    else if StartsAt(t, 0, "&#039;") then "'" + Unescape(t[6..])
    else [t[0]] + Unescape(t[1..])
  }

  lemma {:induction false} ReplaceChainAppend(a: string, b: string)
    ensures ReplaceChain(a + b) == ReplaceChain(a) + ReplaceChain(b)
  {
    var a1, b1 := ReplaceAll(a, '&', "&amp;"), ReplaceAll(b, '&', "&amp;");
    ReplaceAllAppend(a, b, '&', "&amp;");
    var a2, b2 := ReplaceAll(a1, '<', "&lt;"), ReplaceAll(b1, '<', "&lt;");
    ReplaceAllAppend(a1, b1, '<', "&lt;");
    var a3, b3 := ReplaceAll(a2, '>', "&gt;"), ReplaceAll(b2, '>', "&gt;");
    ReplaceAllAppend(a2, b2, '>', "&gt;");
    var a4, b4 := ReplaceAll(a3, '"', "&quot;"), ReplaceAll(b3, '"', "&quot;");
    ReplaceAllAppend(a3, b3, '"', "&quot;");
    ReplaceAllAppend(a4, b4, '\'', "&#039;");
  }

  lemma ReplaceAllSingle(c: char, x: char, rep: string)
    ensures ReplaceAll([c], x, rep) == if c == x then rep else [c]
  {
    assert [c][1..] == [];
  }

  /** The five steps of the chain, one at a time. */
  lemma ChainSteps(s: string, s1: string, s2: string, s3: string, s4: string, s5: string)
    requires s1 == ReplaceAll(s, '&', "&amp;") && s2 == ReplaceAll(s1, '<', "&lt;")
    requires s3 == ReplaceAll(s2, '>', "&gt;") && s4 == ReplaceAll(s3, '"', "&quot;")
    requires s5 == ReplaceAll(s4, '\'', "&#039;")
    ensures ReplaceChain(s) == s5
  {
  }

  /** The characters entities are written with. */
  predicate EntityChar(ch: char)
  {
    ch == '&' || ch == '#' || ch == ';' || 'a' <= ch <= 'z' || '0' <= ch <= '9'
  }

  /** An entity written by one step contains none of the later steps'
      characters, so it passes through them unchanged. */
  lemma EntityPassesStep(e: string, x: char, rep: string)
    requires forall k | 0 <= k < |e| :: EntityChar(e[k])
    requires !EntityChar(x)
    ensures ReplaceAll(e, x, rep) == e
  {
    assert x !in e;
    ReplaceAllAbsent(e, x, rep);
  }

  lemma ChainAmp(c: char)
    requires c == '&'
    ensures ReplaceChain([c]) == Entity(c)
  {
    var e := Entity(c);
    assert forall k | 0 <= k < |e| :: EntityChar(e[k]);
    ReplaceAllSingle(c, '&', "&amp;");
    EntityPassesStep(e, '<', "&lt;");
    EntityPassesStep(e, '>', "&gt;");
    EntityPassesStep(e, '"', "&quot;");
    EntityPassesStep(e, '\'', "&#039;");
    ChainSteps([c], e, e, e, e, e);
  }

  lemma ChainLt(c: char)
    requires c == '<'
    ensures ReplaceChain([c]) == Entity(c)
  {
    var e := Entity(c);
    assert forall k | 0 <= k < |e| :: EntityChar(e[k]);
    ReplaceAllSingle(c, '&', "&amp;");
    ReplaceAllSingle(c, '<', "&lt;");
    EntityPassesStep(e, '>', "&gt;");
    EntityPassesStep(e, '"', "&quot;");
    EntityPassesStep(e, '\'', "&#039;");
    ChainSteps([c], [c], e, e, e, e);
  }

  lemma ChainGt(c: char)
    requires c == '>'
    ensures ReplaceChain([c]) == Entity(c)
  {
    var e := Entity(c);
    assert forall k | 0 <= k < |e| :: EntityChar(e[k]);
    ReplaceAllSingle(c, '&', "&amp;");
    ReplaceAllSingle(c, '<', "&lt;");
    ReplaceAllSingle(c, '>', "&gt;");
    EntityPassesStep(e, '"', "&quot;");
    EntityPassesStep(e, '\'', "&#039;");
    ChainSteps([c], [c], [c], e, e, e);
  }

  lemma ChainQuot(c: char)
    requires c == '"'
    ensures ReplaceChain([c]) == Entity(c)
  {
    var e := Entity(c);
    assert forall k | 0 <= k < |e| :: EntityChar(e[k]);
    ReplaceAllSingle(c, '&', "&amp;");
    ReplaceAllSingle(c, '<', "&lt;");
    ReplaceAllSingle(c, '>', "&gt;");
    ReplaceAllSingle(c, '"', "&quot;");
    EntityPassesStep(e, '\'', "&#039;");
    ChainSteps([c], [c], [c], [c], e, e);
  }

  lemma ChainApos(c: char)
    requires c == '\''
    ensures ReplaceChain([c]) == Entity(c)
  {
    ReplaceAllSingle(c, '&', "&amp;");
    ReplaceAllSingle(c, '<', "&lt;");
    ReplaceAllSingle(c, '>', "&gt;");
    ReplaceAllSingle(c, '"', "&quot;");
    ReplaceAllSingle(c, '\'', "&#039;");
    ChainSteps([c], [c], [c], [c], [c], Entity(c));
  }

  lemma ChainPlain(c: char)
    requires !IsSpecial(c)
    ensures ReplaceChain([c]) == Entity(c)
  {
    ReplaceAllSingle(c, '&', "&amp;");
    ReplaceAllSingle(c, '<', "&lt;");
    ReplaceAllSingle(c, '>', "&gt;");
    ReplaceAllSingle(c, '"', "&quot;");
    ReplaceAllSingle(c, '\'', "&#039;");
    ChainSteps([c], [c], [c], [c], [c], [c]);
  }

  lemma ReplaceChainChar(c: char)
    ensures ReplaceChain([c]) == Entity(c)
  {
    if c == '&' { ChainAmp(c); }
    else if c == '<' { ChainLt(c); }
    else if c == '>' { ChainGt(c); }
    else if c == '"' { ChainQuot(c); }
    else if c == '\'' { ChainApos(c); }
    else { ChainPlain(c); }
  }

  /** The chain of replacements is the one-pass escape: because `&` goes
      first, no entity written by a later step is escaped again. */
  lemma {:induction false} EscapeHtmlIsPerChar(s: string)
    ensures ReplaceChain(s) == EscapeEach(s)
  {
    if s != [] {
      assert s == [s[0]] + s[1..];
      ReplaceChainAppend([s[0]], s[1..]);
      ReplaceChainChar(s[0]);
      EscapeHtmlIsPerChar(s[1..]);
    }
  }

  /** A falsy input gives the empty string. */
  lemma EscapeFalsy()
    ensures EscapeHtml(None) == [] && EscapeHtml(Some([])) == []
  {
  }

  /** The output holds none of `<`, `>`, `"` or `'`. */
  lemma {:induction false} EscapeLeavesNoMarkup(s: string)
    ensures forall i | 0 <= i < |EscapeHtml(Some(s))| :: !IsSpecial(EscapeHtml(Some(s))[i]) || EscapeHtml(Some(s))[i] == '&'
  {
    if s != [] {
      EscapeHtmlIsPerChar(s);
      EscapeEachNoMarkup(s);
    }
  }

  lemma {:induction false} EscapeEachNoMarkup(s: string)
    ensures forall i | 0 <= i < |EscapeEach(s)| :: !IsSpecial(EscapeEach(s)[i]) || EscapeEach(s)[i] == '&'
  {
    if s != [] {
      EscapeEachNoMarkup(s[1..]);
      var e := Entity(s[0]);
      assert forall i | 0 <= i < |e| :: !IsSpecial(e[i]) || e[i] == '&';
    }
  }

  /** `t` at position `i` starts one of the five entities. */
  predicate EntityAt(t: string, i: int)
  {
    StartsAt(t, i, "&amp;") || StartsAt(t, i, "&lt;") || StartsAt(t, i, "&gt;")
    || StartsAt(t, i, "&quot;") || StartsAt(t, i, "&#039;")
  }

  /** Every `&` in `t` begins one of the five entities. */
  predicate AmpersandsAreEntities(t: string)
  {
    forall i | 0 <= i < |t| && t[i] == '&' :: EntityAt(t, i)
  }

  /** Every `&` in the output begins one of the five entities. */
  lemma {:induction false} EscapeAmpersandsAreEntities(s: string)
    ensures AmpersandsAreEntities(EscapeHtml(Some(s)))
  {
    if s != [] {
      EscapeHtmlIsPerChar(s);
      EscapeEachAmpersands(s);
    }
  }

  lemma {:induction false} EscapeEachAmpersands(s: string)
    ensures AmpersandsAreEntities(EscapeEach(s))
  {
    if s != [] {
      EscapeEachAmpersands(s[1..]);
      var e, rest := Entity(s[0]), EscapeEach(s[1..]);
      var t := e + rest;
      assert t == EscapeEach(s);
      forall i | 0 <= i < |t| && t[i] == '&'
        ensures EntityAt(t, i)
      {
        if i < |e| {
          EntityAmpersand(s[0], i);
          EntityAtStart(s[0], rest);
        } else {
          assert rest[i - |e|] == '&';
          EntityAtShift(e, rest, i - |e|);
        }
      }
    }
  }

  /** The only `&` an entity holds is its first character. */
  lemma EntityAmpersand(c: char, i: int)
    requires 0 <= i < |Entity(c)| && Entity(c)[i] == '&'
    ensures IsSpecial(c) && i == 0
  {
  }

  lemma EntityAtStart(c: char, rest: string)
    requires IsSpecial(c)
    ensures EntityAt(Entity(c) + rest, 0)
  {
    var e := Entity(c);
    assert (e + rest)[0..|e|] == e;
    assert StartsAt(e + rest, 0, e);
  }

  lemma StartsAtShift(e: string, rest: string, j: int, p: string)
    requires StartsAt(rest, j, p)
    ensures StartsAt(e + rest, |e| + j, p)
  {
    var shifted, original := (e + rest)[|e| + j..|e| + j + |p|], rest[j..j + |p|];
    assert forall k | 0 <= k < |p| :: shifted[k] == original[k];
    assert shifted == original;
  }

  lemma EntityAtShift(e: string, rest: string, j: int)
    requires AmpersandsAreEntities(rest) && 0 <= j < |rest| && rest[j] == '&'
    ensures EntityAt(e + rest, |e| + j)
  {
    assert EntityAt(rest, j);
    if StartsAt(rest, j, "&amp;") { StartsAtShift(e, rest, j, "&amp;"); }
    else if StartsAt(rest, j, "&lt;") { StartsAtShift(e, rest, j, "&lt;"); }
    else if StartsAt(rest, j, "&gt;") { StartsAtShift(e, rest, j, "&gt;"); }
    else if StartsAt(rest, j, "&quot;") { StartsAtShift(e, rest, j, "&quot;"); }
    else { StartsAtShift(e, rest, j, "&#039;"); }
  }

  /** A string without special characters is returned unchanged. */
  lemma {:induction false} EscapePlainUnchanged(s: string)
    requires forall i | 0 <= i < |s| :: !IsSpecial(s[i])
    ensures EscapeHtml(Some(s)) == s
  {
    EscapeHtmlIsPerChar(s);
    EscapeEachPlain(s);
  }

  lemma {:induction false} EscapeEachPlain(s: string)
    requires forall i | 0 <= i < |s| :: !IsSpecial(s[i])
    ensures EscapeEach(s) == s
  {
    if s != [] {
      assert !IsSpecial(s[0]);
      EscapeEachPlain(s[1..]);
      assert s == [s[0]] + s[1..];
    }
  }

  /** Escaping never shortens a string, and lengthens it exactly when a
      special character occurs. */
  lemma {:induction false} EscapeLength(s: string)
    ensures |EscapeHtml(Some(s))| >= |s|
    ensures |EscapeHtml(Some(s))| == |s| <==> forall i | 0 <= i < |s| :: !IsSpecial(s[i])
  {
    EscapeHtmlIsPerChar(s);
    EscapeEachLength(s);
  }

  lemma {:induction false} EscapeEachLength(s: string)
    ensures |EscapeEach(s)| >= |s|
    ensures |EscapeEach(s)| == |s| <==> forall i | 0 <= i < |s| :: !IsSpecial(s[i])
  {
    if s != [] {
      EscapeEachLength(s[1..]);
      assert forall i | 1 <= i < |s| :: s[i] == s[1..][i - 1];
      if !IsSpecial(s[0]) && forall i | 0 <= i < |s[1..]| :: !IsSpecial(s[1..][i]) {
        assert forall i | 0 <= i < |s| :: !IsSpecial(s[i]);
      }
    }
  }

  /** Decoding the entities gives the input back: escaping loses nothing. */
  lemma {:induction false} UnescapeEscape(s: string)
    ensures Unescape(EscapeHtml(Some(s))) == s
  {
    if s != [] {
      EscapeHtmlIsPerChar(s);
      UnescapeEscapeEach(s);
    }
  }

  lemma {:induction false} UnescapeEscapeEach(s: string)
    ensures Unescape(EscapeEach(s)) == s
  {
    if s != [] {
      UnescapeEscapeEach(s[1..]);
      UnescapeEntity(s[0], EscapeEach(s[1..]));
      assert s == [s[0]] + s[1..];
    }
  }

  lemma UnescapeEntity(c: char, rest: string)
    ensures Unescape(Entity(c) + rest) == [c] + Unescape(rest)
  {
    if c == '&' { UnescapeAmp(rest); }
    else if c == '<' { UnescapeLt(rest); }
    else if c == '>' { UnescapeGt(rest); }
    else if c == '"' { UnescapeQuot(rest); }
    else if c == '\'' { UnescapeApos(rest); }
    else {
      var t := Entity(c) + rest;
      assert t[0] == c && t[1..] == rest;
    }
  }

  lemma UnescapeAmp(rest: string)
    ensures Unescape("&amp;" + rest) == "&" + Unescape(rest)
  {
    var t := "&amp;" + rest;
    assert t[0..5] == "&amp;" && t[5..] == rest;
  }

  lemma UnescapeLt(rest: string)
    ensures Unescape("&lt;" + rest) == "<" + Unescape(rest)
  {
    var t := "&lt;" + rest;
    assert !StartsAt(t, 0, "&amp;") by { if |t| >= 5 { assert t[0..5][1] == 'l'; } }
    assert t[0..4] == "&lt;" && t[4..] == rest;
  }

  lemma UnescapeGt(rest: string)
    ensures Unescape("&gt;" + rest) == ">" + Unescape(rest)
  {
    var t := "&gt;" + rest;
    assert !StartsAt(t, 0, "&amp;") by { if |t| >= 5 { assert t[0..5][1] == 'g'; } }
    assert !StartsAt(t, 0, "&lt;") by { assert t[0..4][1] == 'g'; }
    assert t[0..4] == "&gt;" && t[4..] == rest;
  }

  lemma UnescapeQuot(rest: string)
    ensures Unescape("&quot;" + rest) == "\"" + Unescape(rest)
  {
    var t := "&quot;" + rest;
    assert !StartsAt(t, 0, "&amp;") by { assert t[0..5][1] == 'q'; }
    assert !StartsAt(t, 0, "&lt;") && !StartsAt(t, 0, "&gt;") by { assert t[0..4][1] == 'q'; }
    assert t[0..6] == "&quot;" && t[6..] == rest;
  }

  lemma UnescapeApos(rest: string)
    ensures Unescape("&#039;" + rest) == "'" + Unescape(rest)
  {
    var t := "&#039;" + rest;
    assert !StartsAt(t, 0, "&amp;") by { assert t[0..5][1] == '#'; }
    assert !StartsAt(t, 0, "&lt;") && !StartsAt(t, 0, "&gt;") by { assert t[0..4][1] == '#'; }
    assert !StartsAt(t, 0, "&quot;") by { assert t[0..6][1] == '#'; }
    assert t[0..6] == "&#039;" && t[6..] == rest;
  }

  /** A special character in the input leaves an `&` in the output. */
  lemma {:induction false} EscapeEachKeepsAmpersand(s: string, i: int)
    requires 0 <= i < |s| && IsSpecial(s[i])
    ensures '&' in EscapeEach(s)
  {
    assert EscapeEach(s) == Entity(s[0]) + EscapeEach(s[1..]);
    if i == 0 {
      assert Entity(s[0])[0] == '&';
    } else {
      assert s[1..][i - 1] == s[i];
      EscapeEachKeepsAmpersand(s[1..], i - 1);
    }
  }

  /** Escaping is not idempotent: once the input holds a special character,
      escaping the output again lengthens it, because the `&` of every entity
      is escaped once more. */
  lemma EscapeNotIdempotent(s: string)
    requires exists i | 0 <= i < |s| :: IsSpecial(s[i])
    ensures |EscapeHtml(Some(EscapeHtml(Some(s))))| > |EscapeHtml(Some(s))|
  {
    var i :| 0 <= i < |s| && IsSpecial(s[i]);
    var t := EscapeHtml(Some(s));
    EscapeHtmlIsPerChar(s);
    EscapeEachKeepsAmpersand(s, i);
    var k :| 0 <= k < |t| && t[k] == '&';
    EscapeLength(t);
  }

  /** Escaping `&` followed by anything gives `&amp;` followed by the rest
      escaped: "&lt;" becomes "&amp;lt;". */
  lemma EscapeAmpersandFirst(rest: string)
    ensures EscapeHtml(Some("&" + rest)) == "&amp;" + EscapeEach(rest)
  {
    var s := "&" + rest;
    EscapeHtmlIsPerChar(s);
    assert s[0] == '&' && s[1..] == rest;
  }

  // The product cache

  /** A product as the page receives it from the listing: its id and the
      rest of its fields. */
  datatype Listed = Listed(id: string, fields: Doc)

  /** The cache after storing `products` one after another. */
  function CacheOf(products: seq<Listed>): map<string, Listed>
  {
    if products == [] then map[]
    else CacheOf(products[..|products| - 1])[products[|products| - 1].id := products[|products| - 1]]
  }

  /** The ids in a listing. */
  function Ids(products: seq<Listed>): set<string>
  {
    set i | 0 <= i < |products| :: products[i].id
  }

  /** The last position listing `id`, or -1. */
  function LastWith(products: seq<Listed>, id: string): (j: int)
    ensures -1 <= j < |products|
    ensures j >= 0 ==> products[j].id == id
    ensures forall k | j < k < |products| :: products[k].id != id
  {
    if products == [] then -1
    else if products[|products| - 1].id == id then |products| - 1
    else LastWith(products[..|products| - 1], id)
  }

  /** An id is cached exactly when it is listed, and then with the last
      product listed under it. */
  lemma {:induction false} CacheOfLookup(products: seq<Listed>, id: string)
    ensures id in CacheOf(products) <==> LastWith(products, id) >= 0
    ensures id in CacheOf(products) ==> CacheOf(products)[id] == products[LastWith(products, id)]
  {
    if products != [] {
      var n := |products| - 1;
      CacheOfLookup(products[..n], id);
    }
  }

  /** The cache's keys are exactly the listed ids. */
  lemma CacheOfKeys(products: seq<Listed>)
    ensures CacheOf(products).Keys == Ids(products)
  {
    forall id ensures id in CacheOf(products) <==> id in Ids(products) {
      CacheOfLookup(products, id);
      if id in Ids(products) {
        var i :| 0 <= i < |products| && products[i].id == id;
        assert LastWith(products, id) >= i;
      }
    }
  }

  /** The edit form as `openEditModal` fills it. */
  datatype EditForm = EditForm(name: Option<Value>, price: Option<Value>, stock: Option<Value>,
                               description: Option<Value>, productId: string)

  /** `value || ""` on a form field. */
  function OrEmpty(v: Option<Value>): Option<Value>
  {
    if Truthy(v) then v else Some(Str([]))
  }

  /** The form for a cached product. */
  function FormFor(p: Listed, productId: string): EditForm
  {
    EditForm(Field(p.fields, "name"), Field(p.fields, "price"), OrEmpty(Field(p.fields, "stock")),
             OrEmpty(Field(p.fields, "description")), productId)
  }

  /** The page's state: the cache, the edit dialog and the last message. */
  class Page {
    var cache: map<string, Listed>
    var modal: Option<EditForm>
    var message: Option<string>

    constructor ()
      ensures cache == map[] && modal == None && message == None
    {
      cache := map[];
      modal := None;
      message := None;
    }

    /** The cache part of `displayProducts(products)`: reset, then one entry
      per product in order. */
    method DisplayProducts(products: seq<Listed>)
      modifies this`cache
      ensures cache == CacheOf(products)
    {
      cache := map[];
      var i := 0;
      while i < |products|
        invariant 0 <= i <= |products|
        invariant cache == CacheOf(products[..i])
      {
        assert products[..i + 1][..i] == products[..i];
        cache := cache[products[i].id := products[i]];
        i := i + 1;
      }
      assert products[..i] == products;
    }

    /** `openEditModal(productId)`: an id missing from the cache shows "Producto
      no encontrado" and leaves the dialog as it was; otherwise the dialog
      opens with the cached product's fields. */
    method OpenEditModal(productId: string)
      modifies this`modal, this`message
      ensures productId !in cache ==> message == Some(NotFound) && modal == old(modal)
      ensures productId in cache ==>
        modal == Some(FormFor(cache[productId], productId)) && message == old(message)
    {
      if productId !in cache {
        message := Some(NotFound);
        return;
      }
      var product := cache[productId];
      modal := Some(FormFor(product, productId));
    }
  }

  /** After a listing, the dialog opens exactly for the listed ids, and with
      the last product listed under the id. */
  lemma OpenAfterListing(products: seq<Listed>, productId: string)
    ensures productId in CacheOf(products) <==> productId in Ids(products)
    ensures productId in CacheOf(products) ==>
      CacheOf(products)[productId] == products[LastWith(products, productId)]
  {
    CacheOfKeys(products);
    CacheOfLookup(products, productId);
  }
}
