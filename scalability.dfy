/** scripts/generate_scalability.py: a random data set of num_items
    vectors and lowercase strings drawn from one seeded generator. */
module Scalability {
  import opened Common
  import opened Rng
  import QueryGen

  /** The options `main` checks (the seed chooses the tape of draws, the
      output paths are left to the caller). */
  datatype Options = Options(numItems: int, dim: int, minStrLen: int, maxStrLen: int)

  /** The ValueError `main` raises, one per check. */
  datatype OptionError = BadNumItems | BadDim | BadMinStrLen | BadMaxStrLen

  /** The checks of `main`, in the order it makes them: the first one that
      fails names the error. */
  function Validate(o: Options): (e: Option<OptionError>)
    ensures e == None <==> o.numItems > 0 && o.dim > 0 && o.minStrLen > 0 && o.maxStrLen >= o.minStrLen
    ensures e == Some(BadNumItems) <==> o.numItems <= 0
    ensures e == Some(BadDim) <==> o.numItems > 0 && o.dim <= 0
    ensures e == Some(BadMinStrLen) <==> o.numItems > 0 && o.dim > 0 && o.minStrLen <= 0
    ensures e == Some(BadMaxStrLen) <==> o.numItems > 0 && o.dim > 0 && o.minStrLen > 0 && o.maxStrLen < o.minStrLen
  {
    if o.numItems <= 0 then Some(BadNumItems)
    else if o.dim <= 0 then Some(BadDim)
    else if o.minStrLen <= 0 then Some(BadMinStrLen)
    else if o.maxStrLen < o.minStrLen then Some(BadMaxStrLen)
    else None
  }

  predicate IsLower(c: char) { 'a' <= c <= 'z' }

  predicate AllLower(t: string)
  {
    forall j | 0 <= j < |t| :: IsLower(t[j])
  }

  /** Letter `i` of `string.ascii_lowercase`. */
  function LowercaseLetter(i: int): (c: char)
    requires 0 <= i < 26
    ensures IsLower(c)
  {
    ('a' as int + i) as char
  }

  /** The letter `rng.choice(alphabet)` picks for raw draw `d`. */
  function Letter(d: nat): (c: char)
    ensures IsLower(c)
  {
    LowercaseLetter(IntIn(d, 0, 25))
  }

  /** `n` letters, one per draw from draw `pos` on. */
  function Letters(draw: Tape, pos: nat, n: nat): (t: string)
    ensures |t| == n && AllLower(t)
    ensures forall j | 0 <= j < n :: t[j] == Letter(Draw(draw, pos + j))
  {
    if n == 0 then [] else Letters(draw, pos, n - 1) + [Letter(Draw(draw, pos + n - 1))]
  }

  /** `random_string(rng, min_len, max_len)` with the generator at draw
      `pos`: the length from `randint`, then one letter per draw. */
  function StringAt(draw: Tape, pos: nat, minLen: int, maxLen: int): (t: string)
    requires minLen <= maxLen
    ensures 0 <= minLen ==> minLen <= |t| <= maxLen
    ensures AllLower(t)
  {
    Letters(draw, pos + 1, Max(IntIn(Draw(draw, pos), minLen, maxLen), 0))
  }

  /** `random_string`: draws the length, then one letter per character. */
  method RandomString(rng: Rng, minLen: int, maxLen: int) returns (t: string)
    requires minLen <= maxLen
    modifies rng
    ensures t == StringAt(rng.draw, old(rng.pos), minLen, maxLen)
    ensures rng.pos == old(rng.pos) + 1 + |t|
  {
    var length := rng.RandInt(minLen, maxLen);
    ghost var first := rng.pos;
    t := [];
    while |t| < length
      invariant |t| <= Max(length, 0)
      invariant rng.pos == first + |t|
      invariant t == Letters(rng.draw, first, |t|)
    {
      var i := rng.ChoiceIndex(26);
      t := t + [LowercaseLetter(i)];
    }
  }

  /** One generated item: its vector and its string. */
  datatype Item = Item(vector: seq<real>, text: string)

  /** The item generated with the generator at draw `pos`: the vector is
      drawn before the string. */
  function ItemAt(draw: Tape, pos: nat, o: Options): (it: Item)
    requires o.minStrLen <= o.maxStrLen
  {
    Item(UnitVector(draw, pos, o.dim), StringAt(draw, pos + Max(o.dim, 0), o.minStrLen, o.maxStrLen))
  }

  /** Raw draws one item consumes: one per component, one for the length,
      one per letter. */
  function ItemDraws(draw: Tape, pos: nat, o: Options): nat
    requires o.minStrLen <= o.maxStrLen
  {
    Max(o.dim, 0) + 1 + |ItemAt(draw, pos, o).text|
  }

  /** `n` items generated one after the other from draw `pos` on. */
  function ItemsFrom(draw: Tape, pos: nat, o: Options, n: nat): (items: seq<Item>)
    requires o.minStrLen <= o.maxStrLen
    ensures |items| == n
    decreases n
  {
    if n == 0 then [] else [ItemAt(draw, pos, o)] + ItemsFrom(draw, pos + ItemDraws(draw, pos, o), o, n - 1)
  }

  /** What `main` produces: a ValueError, or the items it writes. */
  datatype Outcome = Rejected(error: OptionError) | Written(items: seq<Item>)

  /** `main`: validate, seed one generator (its stream of draws is `draw`),
      then per item draw the vector and the string and write one line to
      each file. */
  method Generate(o: Options, draw: Tape) returns (out: Outcome)
    ensures Validate(o).Some? ==> out == Rejected(Validate(o).value)
    ensures Validate(o).None? ==> out == Written(ItemsFrom(draw, 0, o, o.numItems))
  {
    var invalid := Validate(o);
    if invalid.Some? {
      return Rejected(invalid.value);
    }
    var rng := new Rng(draw);
    var items := GenerateItems(rng, o);
    out := Written(items);
  }

  /** The loop of `main` after validation, on the freshly seeded
      generator. */
  method GenerateItems(rng: Rng, o: Options) returns (items: seq<Item>)
    requires 0 <= o.numItems && o.minStrLen <= o.maxStrLen
    modifies rng
    ensures items == ItemsFrom(rng.draw, old(rng.pos), o, o.numItems)
  {
    ghost var start := rng.pos;
    items := [];
    var i: nat := 0;
    while i < o.numItems
      invariant i <= o.numItems
      invariant Pending(rng.draw, start, rng.pos, o, i, items)
    {
      ghost var here := rng.pos;
      var it := DrawItem(rng, o);
      NextItem(rng.draw, start, here, o, i, items, it);
      items := items + [it];
      i := i + 1;
    }
    assert items + ItemsFrom(rng.draw, rng.pos, o, 0) == items;
  }

  /** After `i` items, the items written so far followed by the ones still
      to be drawn from `pos` are the whole run. */
  predicate Pending(draw: Tape, start: nat, pos: nat, o: Options, i: nat, done: seq<Item>)
    requires o.minStrLen <= o.maxStrLen && i <= o.numItems
  {
    done + ItemsFrom(draw, pos, o, o.numItems - i) == ItemsFrom(draw, start, o, o.numItems)
  }

  /** Taking the next item off the list still to be generated. */
  lemma NextItem(draw: Tape, start: nat, pos: nat, o: Options, i: nat, done: seq<Item>, it: Item)
    requires o.minStrLen <= o.maxStrLen && i < o.numItems
    requires Pending(draw, start, pos, o, i, done)
    requires it == ItemAt(draw, pos, o)
    ensures Pending(draw, start, pos + ItemDraws(draw, pos, o), o, i + 1, done + [it])
  {
    var rest := ItemsFrom(draw, pos + ItemDraws(draw, pos, o), o, o.numItems - i - 1);
    assert ItemsFrom(draw, pos, o, o.numItems - i) == [it] + rest;
    AppendAssociative(done, [it], rest);
  }

  /** One iteration of the loop in `main`: `random_vector`, then
      `random_string`. */
  method DrawItem(rng: Rng, o: Options) returns (it: Item)
    requires o.minStrLen <= o.maxStrLen
    modifies rng
    ensures it == ItemAt(rng.draw, old(rng.pos), o)
    ensures rng.pos == old(rng.pos) + ItemDraws(rng.draw, old(rng.pos), o)
  {
    var vec := rng.RandomVector(o.dim);
    var text := RandomString(rng, o.minStrLen, o.maxStrLen);
    it := Item(vec, text);
  }

  /** What the script promises of every item. */
  predicate ItemShape(it: Item, o: Options)
  {
    |it.vector| == Max(o.dim, 0) && (forall j | 0 <= j < |it.vector| :: 0.0 <= it.vector[j] < 1.0) &&
    o.minStrLen <= |it.text| <= o.maxStrLen && AllLower(it.text)
  }

  predicate AllItemsShape(items: seq<Item>, o: Options)
  {
    forall i | 0 <= i < |items| :: ItemShape(items[i], o)
  }

  /** Every item of a valid run has a vector of dim components in [0, 1)
      and a lowercase string of length between the bounds. */
  lemma {:induction false} ItemsShape(draw: Tape, pos: nat, o: Options, n: nat)
    requires 0 <= o.minStrLen <= o.maxStrLen
    ensures AllItemsShape(ItemsFrom(draw, pos, o, n), o)
    decreases n
  {
    if n > 0 {
      var rest := ItemsFrom(draw, pos + ItemDraws(draw, pos, o), o, n - 1);
      ItemsShape(draw, pos + ItemDraws(draw, pos, o), o, n - 1);
      var items := [ItemAt(draw, pos, o)] + rest;
      assert ItemShape(items[0], o);
      forall i | 1 <= i < |items| ensures ItemShape(items[i], o) {
        assert items[i] == rest[i - 1];
      }
    }
  }

  /** A run that passes validation writes exactly num_items items, all of
      the promised shape. */
  lemma WrittenItems(o: Options, draw: Tape)
    requires Validate(o).None?
    ensures |ItemsFrom(draw, 0, o, o.numItems)| == o.numItems
    ensures AllItemsShape(ItemsFrom(draw, 0, o, o.numItems), o)
  {
    ItemsShape(draw, 0, o, o.numItems);
  }

  /** The two files: one vector line and one string line per item. */
  function Files(items: seq<Item>, showReal: real -> string): (files: (seq<string>, seq<string>))
    ensures |files.0| == |items| && |files.1| == |items|
    ensures forall i | 0 <= i < |items| ::
      files.0[i] == QueryGen.VectorLine(items[i].vector, showReal) && files.1[i] == items[i].text + "\n"
  {
    if items == [] then ([], [])
    else
      var rest := Files(items[1..], showReal);
      ([QueryGen.VectorLine(items[0].vector, showReal)] + rest.0, [items[0].text + "\n"] + rest.1)
  }
}
