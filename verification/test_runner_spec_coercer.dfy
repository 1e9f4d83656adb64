/**
 * Coercion of a freeform, JSON-like attribute value into a `TestRunnerSpec`: a tree of
 * maps, lists, numbers and booleans whose keys and string leaves are strings with
 * macros. The macros coercer is a parameter: it turns one leaf (or one map key) into a
 * string with macros of type `S`, or fails.
 */
module TestRunnerSpecCoercer {
  import opened Wrappers

  /** A boxed number, kept exactly as it was given. */
  datatype Number = LongNumber(long: int) | DoubleNumber(double: real)

  /** The freeform value an attribute holds before coercion. */
  datatype Json =
    | JMap(entries: seq<Entry>)
    | JList(items: seq<Json>)
    | JNumber(number: Number)
    | JBoolean(boolean: bool)
    | JString(text: string)
    | JNull

  /** One key/value pair of a map, in the map's iteration order. */
  datatype Entry = Entry(key: Json, value: Json)

  /** The exception a coercer throws. */
  datatype CoerceFailed = CoerceFailed(message: string)

  /** A coerced test-runner spec over strings with macros of type `S`. */
  datatype TestRunnerSpec<S> =
    | SpecMap(specEntries: seq<SpecEntry<S>>)
    | SpecList(specItems: seq<TestRunnerSpec<S>>)
    | SpecNumber(number: Number)
    | SpecBoolean(boolean: bool)
    | SpecStringWithMacros(stringWithMacros: S)

  datatype SpecEntry<S> = SpecEntry(key: S, value: TestRunnerSpec<S>)

  /** The coercer used for map keys and leaves: a string with macros, or a failure. */
  type MacrosCoercer<S> = Json -> Result<S, CoerceFailed>

  // ---------------------------------------------------------------------------------
  // The coercion

  /**
   * Coerces `obj`: a map becomes a spec map (keys through the macros coercer, values
   * recursively), a list a spec list, numbers and booleans are wrapped unchanged, and
   * anything else goes through the macros coercer. Only the macros coercer can fail.
   */
  function Coerce<S>(macros: MacrosCoercer<S>, obj: Json): (r: Result<TestRunnerSpec<S>, CoerceFailed>)
    decreases obj, 1
    ensures r.Success? && obj.JMap? ==>
      r.value.SpecMap? && |r.value.specEntries| == |obj.entries|
    ensures r.Success? && obj.JList? ==>
      r.value.SpecList? && |r.value.specItems| == |obj.items|
    ensures obj.JNumber? ==> r == Success(SpecNumber(obj.number))
    ensures obj.JBoolean? ==> r == Success(SpecBoolean(obj.boolean))
    ensures (obj.JString? || obj.JNull?) ==>
      (r.Failure? <==> macros(obj).Failure?) &&
      (r.Failure? ==> r.error == macros(obj).error) &&
      (r.Success? ==> r.value == SpecStringWithMacros(macros(obj).value))
  {
    match obj
    case JMap(entries) =>
      var specEntries :- CoerceEntries(macros, entries);
      Success(SpecMap(specEntries))
    case JList(items) =>
      var specItems :- CoerceItems(macros, items);
      Success(SpecList(specItems))
    case JNumber(n) => Success(SpecNumber(n))
    case JBoolean(b) => Success(SpecBoolean(b))
    case _ =>
      var s :- macros(obj);
      Success(SpecStringWithMacros(s))
  }

  /** The map coercer: each key, then its value, in iteration order; the first failure wins. */
  function CoerceEntries<S>(macros: MacrosCoercer<S>, entries: seq<Entry>)
    : (r: Result<seq<SpecEntry<S>>, CoerceFailed>)
    decreases entries, 0
    ensures r.Success? ==> |r.value| == |entries|
  {
    if entries == [] then Success([])
    else
      assert entries[0] in entries;
      assert entries[0].value < entries[0];
      var key :- macros(entries[0].key);
      var value :- Coerce(macros, entries[0].value);
      var rest :- CoerceEntries(macros, entries[1..]);
      Success([SpecEntry(key, value)] + rest)
  }

  /** The list coercer: each element in order; the first failure wins. */
  function CoerceItems<S>(macros: MacrosCoercer<S>, items: seq<Json>)
    : (r: Result<seq<TestRunnerSpec<S>>, CoerceFailed>)
    decreases items, 0
    ensures r.Success? ==> |r.value| == |items|
  {
    if items == [] then Success([])
    else
      var item :- Coerce(macros, items[0]);
      var rest :- CoerceItems(macros, items[1..]);
      Success([item] + rest)
  }

  /** The unconfigured form of a value is the value itself. */
  function CoerceToUnconfigured(obj: Json): (r: Result<Json, CoerceFailed>)
    ensures r.Success? && r.value == obj
  {
    Success(obj)
  }

  /** Coercion of a raw value: to its unconfigured form, then to a spec. */
  function CoerceBoth<S>(macros: MacrosCoercer<S>, obj: Json): Result<TestRunnerSpec<S>, CoerceFailed> {
    var unconfigured :- CoerceToUnconfigured(obj);
    Coerce(macros, unconfigured)
  }

  /** Going through the unconfigured form changes nothing. */
  lemma CoerceBothIsCoerce<S>(macros: MacrosCoercer<S>, obj: Json)
    ensures CoerceBoth(macros, obj) == Coerce(macros, obj)
  {
  }

  /** A test-runner spec holds no element of any class. */
  function HasElementClass(types: seq<string>): (r: bool)
    ensures !r
  {
    false
  }

  /** Traversing a spec visits nothing: the values it visits, in order. */
  function Traverse<S>(obj: TestRunnerSpec<S>): (visited: seq<TestRunnerSpec<S>>)
    ensures visited == []
  {
    []
  }

  // ---------------------------------------------------------------------------------
  // Element by element

  /** A list coerces to exactly the list of its coerced elements. */
  lemma {:induction false} CoerceListElementwise<S>(
    macros: MacrosCoercer<S>, items: seq<Json>, specItems: seq<TestRunnerSpec<S>>)
    ensures CoerceItems(macros, items) == Success(specItems) <==>
      |specItems| == |items| &&
      forall i | 0 <= i < |items| :: Coerce(macros, items[i]) == Success(specItems[i])
    decreases items
  {
    if items != [] && specItems != [] {
      CoerceListElementwise(macros, items[1..], specItems[1..]);
      if |specItems| == |items| &&
        forall i | 0 <= i < |items| :: Coerce(macros, items[i]) == Success(specItems[i])
      {
        assert Coerce(macros, items[0]) == Success(specItems[0]);
        forall i | 0 <= i < |items[1..]|
          ensures Coerce(macros, items[1..][i]) == Success(specItems[1..][i])
        {
          assert items[1..][i] == items[i + 1];
        }
        assert specItems == [specItems[0]] + specItems[1..];
      }
    }
  }

  /** A map coerces to exactly the entries of its coerced keys and coerced values. */
  lemma {:induction false} CoerceMapElementwise<S>(
    macros: MacrosCoercer<S>, entries: seq<Entry>, specEntries: seq<SpecEntry<S>>)
    ensures CoerceEntries(macros, entries) == Success(specEntries) <==>
      |specEntries| == |entries| &&
      forall i | 0 <= i < |entries| ::
        macros(entries[i].key) == Success(specEntries[i].key) &&
        Coerce(macros, entries[i].value) == Success(specEntries[i].value)
    decreases entries
  {
    if entries != [] && specEntries != [] {
      CoerceMapElementwise(macros, entries[1..], specEntries[1..]);
      if |specEntries| == |entries| &&
        forall i | 0 <= i < |entries| ::
          macros(entries[i].key) == Success(specEntries[i].key) &&
          Coerce(macros, entries[i].value) == Success(specEntries[i].value)
      {
        assert macros(entries[0].key) == Success(specEntries[0].key);
        assert Coerce(macros, entries[0].value) == Success(specEntries[0].value);
        forall i | 0 <= i < |entries[1..]|
          ensures macros(entries[1..][i].key) == Success(specEntries[1..][i].key)
          ensures Coerce(macros, entries[1..][i].value) == Success(specEntries[1..][i].value)
        {
          assert entries[1..][i] == entries[i + 1];
        }
        assert specEntries == [specEntries[0]] + specEntries[1..];
      }
    }
  }

  // ---------------------------------------------------------------------------------
  // Failure

  /** The values handed to the macros coercer, in the order the coercion visits them. */
  function MacroInputs(obj: Json): seq<Json>
    decreases obj, 1
  {
    match obj
    case JMap(entries) => MacroInputsOfEntries(entries)
    case JList(items) => MacroInputsOfItems(items)
    case JNumber(_) => []
    case JBoolean(_) => []
    case _ => [obj]
  }

  function MacroInputsOfEntries(entries: seq<Entry>): seq<Json>
    decreases entries, 0
  {
    if entries == [] then []
    else
      assert entries[0] in entries;
      assert entries[0].value < entries[0];
      [entries[0].key] + MacroInputs(entries[0].value) + MacroInputsOfEntries(entries[1..])
  }

  function MacroInputsOfItems(items: seq<Json>): seq<Json>
    decreases items, 0
  {
    if items == [] then []
    else MacroInputs(items[0]) + MacroInputsOfItems(items[1..])
  }

  /** The error of the first value in `inputs` that the macros coercer rejects, if any. */
  function FirstFailure<S>(macros: MacrosCoercer<S>, inputs: seq<Json>): (r: Option<CoerceFailed>)
    ensures r.None? <==> forall x | x in inputs :: macros(x).Success?
  {
    if inputs == [] then None
    else if macros(inputs[0]).Failure? then Some(macros(inputs[0]).error)
    else FirstFailure(macros, inputs[1..])
  }

  lemma {:induction false} FirstFailureAppend<S>(macros: MacrosCoercer<S>, xs: seq<Json>, ys: seq<Json>)
    ensures FirstFailure(macros, xs + ys) ==
      if FirstFailure(macros, xs).Some? then FirstFailure(macros, xs) else FirstFailure(macros, ys)
  {
    if xs != [] {
      assert (xs + ys)[0] == xs[0];
      assert (xs + ys)[1..] == xs[1..] + ys;
      FirstFailureAppend(macros, xs[1..], ys);
    } else {
      assert xs + ys == ys;
    }
  }

  /**
   * The coercion fails exactly when the macros coercer rejects one of the values handed
   * to it, and then with the error of the first one rejected.
   */
  lemma {:induction false} CoerceFailsAtFirstMacroFailure<S>(macros: MacrosCoercer<S>, obj: Json)
    ensures Coerce(macros, obj).Failure? <==> FirstFailure(macros, MacroInputs(obj)).Some?
    ensures Coerce(macros, obj).Failure? ==>
      Coerce(macros, obj).error == FirstFailure(macros, MacroInputs(obj)).value
    decreases obj, 1
  {
    match obj
    case JMap(entries) => EntriesFailAtFirstMacroFailure(macros, entries);
    case JList(items) => ItemsFailAtFirstMacroFailure(macros, items);
    case JNumber(_) =>
    case JBoolean(_) =>
    case _ =>
      assert MacroInputs(obj) == [obj];
  }

  lemma {:induction false} EntriesFailAtFirstMacroFailure<S>(macros: MacrosCoercer<S>, entries: seq<Entry>)
    ensures CoerceEntries(macros, entries).Failure? <==>
      FirstFailure(macros, MacroInputsOfEntries(entries)).Some?
    ensures CoerceEntries(macros, entries).Failure? ==>
      CoerceEntries(macros, entries).error == FirstFailure(macros, MacroInputsOfEntries(entries)).value
    decreases entries, 0
  {
    if entries != [] {
      assert entries[0] in entries;
      var e := entries[0];
      assert e.value < e;
      CoerceFailsAtFirstMacroFailure(macros, e.value);
      EntriesFailAtFirstMacroFailure(macros, entries[1..]);
      FirstFailureAppend(macros, [e.key], MacroInputs(e.value));
      FirstFailureAppend(macros, [e.key] + MacroInputs(e.value), MacroInputsOfEntries(entries[1..]));
    }
  }

  lemma {:induction false} ItemsFailAtFirstMacroFailure<S>(macros: MacrosCoercer<S>, items: seq<Json>)
    ensures CoerceItems(macros, items).Failure? <==>
      FirstFailure(macros, MacroInputsOfItems(items)).Some?
    ensures CoerceItems(macros, items).Failure? ==>
      CoerceItems(macros, items).error == FirstFailure(macros, MacroInputsOfItems(items)).value
    decreases items, 0
  {
    if items != [] {
      CoerceFailsAtFirstMacroFailure(macros, items[0]);
      ItemsFailAtFirstMacroFailure(macros, items[1..]);
      FirstFailureAppend(macros, MacroInputs(items[0]), MacroInputsOfItems(items[1..]));
    }
  }

  /** The coercion never fails on its own account: a macros coercer that accepts everything makes it total. */
  lemma CoerceFailsOnlyThroughMacros<S>(macros: MacrosCoercer<S>, obj: Json)
    requires forall x :: macros(x).Success?
    ensures Coerce(macros, obj).Success?
  {
    CoerceFailsAtFirstMacroFailure(macros, obj);
  }

  // ---------------------------------------------------------------------------------
  // Round trips

  /** Writes a spec back as a freeform value, with `unmacro` for keys and string leaves. */
  function Render<S>(spec: TestRunnerSpec<S>, unmacro: S -> Json): Json
    decreases spec, 1
  {
    match spec
    case SpecMap(specEntries) => JMap(RenderEntries(specEntries, unmacro))
    case SpecList(specItems) => JList(RenderItems(specItems, unmacro))
    case SpecNumber(n) => JNumber(n)
    case SpecBoolean(b) => JBoolean(b)
    case SpecStringWithMacros(s) => unmacro(s)
  }

  function RenderEntries<S>(specEntries: seq<SpecEntry<S>>, unmacro: S -> Json): (r: seq<Entry>)
    decreases specEntries, 0
    ensures |r| == |specEntries|
  {
    if specEntries == [] then []
    else
      assert specEntries[0] in specEntries;
      assert specEntries[0].value < specEntries[0];
      [Entry(unmacro(specEntries[0].key), Render(specEntries[0].value, unmacro))]
      + RenderEntries(specEntries[1..], unmacro)
  }

  function RenderItems<S>(specItems: seq<TestRunnerSpec<S>>, unmacro: S -> Json): (r: seq<Json>)
    decreases specItems, 0
    ensures |r| == |specItems|
  {
    if specItems == [] then []
    else [Render(specItems[0], unmacro)] + RenderItems(specItems[1..], unmacro)
  }

  /** A value handed to the macros coercer as a leaf: neither a map, a list, a number nor a boolean. */
  predicate IsMacroLeaf(obj: Json) {
    obj.JString? || obj.JNull?
  }

  /**
   * When the macros coercer accepts every value handed to it and `unmacro` undoes it,
   * coercing and rendering back gives the original value.
   */
  lemma {:induction false} RenderUndoesCoerce<S>(macros: MacrosCoercer<S>, unmacro: S -> Json, obj: Json)
    requires forall x | x in MacroInputs(obj) :: macros(x).Success? && unmacro(macros(x).value) == x
    ensures Coerce(macros, obj).Success?
    ensures Render(Coerce(macros, obj).value, unmacro) == obj
    decreases obj, 1
  {
    match obj
    case JMap(entries) => RenderUndoesCoerceEntries(macros, unmacro, entries);
    case JList(items) => RenderUndoesCoerceItems(macros, unmacro, items);
    case JNumber(_) =>
    case JBoolean(_) =>
    case _ =>
      assert obj in MacroInputs(obj);
  }

  lemma {:induction false} RenderUndoesCoerceEntries<S>(macros: MacrosCoercer<S>, unmacro: S -> Json, entries: seq<Entry>)
    requires forall x | x in MacroInputsOfEntries(entries) :: macros(x).Success? && unmacro(macros(x).value) == x
    ensures CoerceEntries(macros, entries).Success?
    ensures RenderEntries(CoerceEntries(macros, entries).value, unmacro) == entries
    decreases entries, 0
  {
    if entries != [] {
      assert entries[0] in entries;
      var e := entries[0];
      assert e.value < e;
      var inputs := MacroInputsOfEntries(entries);
      assert inputs == [e.key] + MacroInputs(e.value) + MacroInputsOfEntries(entries[1..]);
      assert e.key in inputs;
      RenderUndoesCoerce(macros, unmacro, e.value);
      RenderUndoesCoerceEntries(macros, unmacro, entries[1..]);
      assert entries == [e] + entries[1..];
    }
  }

  lemma {:induction false} RenderUndoesCoerceItems<S>(macros: MacrosCoercer<S>, unmacro: S -> Json, items: seq<Json>)
    requires forall x | x in MacroInputsOfItems(items) :: macros(x).Success? && unmacro(macros(x).value) == x
    ensures CoerceItems(macros, items).Success?
    ensures RenderItems(CoerceItems(macros, items).value, unmacro) == items
    decreases items, 0
  {
    if items != [] {
      assert MacroInputsOfItems(items) == MacroInputs(items[0]) + MacroInputsOfItems(items[1..]);
      RenderUndoesCoerce(macros, unmacro, items[0]);
      RenderUndoesCoerceItems(macros, unmacro, items[1..]);
      assert items == [items[0]] + items[1..];
    }
  }

  /**
   * When `unmacro` writes every string with macros as a leaf that the macros coercer
   * reads back, rendering a spec and coercing it again gives the same spec.
   */
  lemma {:induction false} CoerceUndoesRender<S>(macros: MacrosCoercer<S>, unmacro: S -> Json, spec: TestRunnerSpec<S>)
    requires forall s :: IsMacroLeaf(unmacro(s)) && macros(unmacro(s)) == Success(s)
    ensures Coerce(macros, Render(spec, unmacro)) == Success(spec)
    decreases spec, 1
  {
    match spec
    case SpecMap(specEntries) => CoerceUndoesRenderEntries(macros, unmacro, specEntries);
    case SpecList(specItems) => CoerceUndoesRenderItems(macros, unmacro, specItems);
    case SpecNumber(_) =>
    case SpecBoolean(_) =>
    case SpecStringWithMacros(s) =>
      assert IsMacroLeaf(unmacro(s));
  }

  lemma {:induction false} CoerceUndoesRenderEntries<S>(
    macros: MacrosCoercer<S>, unmacro: S -> Json, specEntries: seq<SpecEntry<S>>)
    requires forall s :: IsMacroLeaf(unmacro(s)) && macros(unmacro(s)) == Success(s)
    ensures CoerceEntries(macros, RenderEntries(specEntries, unmacro)) == Success(specEntries)
    decreases specEntries, 0
  {
    if specEntries != [] {
      assert specEntries[0] in specEntries;
      var e := specEntries[0];
      assert e.value < e;
      var rendered := RenderEntries(specEntries, unmacro);
      assert rendered[0] == Entry(unmacro(e.key), Render(e.value, unmacro));
      assert rendered[1..] == RenderEntries(specEntries[1..], unmacro);
      assert macros(unmacro(e.key)) == Success(e.key);
      CoerceUndoesRender(macros, unmacro, e.value);
      CoerceUndoesRenderEntries(macros, unmacro, specEntries[1..]);
      assert specEntries == [e] + specEntries[1..];
    }
  }

  lemma {:induction false} CoerceUndoesRenderItems<S>(
    macros: MacrosCoercer<S>, unmacro: S -> Json, specItems: seq<TestRunnerSpec<S>>)
    requires forall s :: IsMacroLeaf(unmacro(s)) && macros(unmacro(s)) == Success(s)
    ensures CoerceItems(macros, RenderItems(specItems, unmacro)) == Success(specItems)
    decreases specItems, 0
  {
    if specItems != [] {
      var rendered := RenderItems(specItems, unmacro);
      assert rendered[0] == Render(specItems[0], unmacro);
      assert rendered[1..] == RenderItems(specItems[1..], unmacro);
      CoerceUndoesRender(macros, unmacro, specItems[0]);
      CoerceUndoesRenderItems(macros, unmacro, specItems[1..]);
      assert specItems == [specItems[0]] + specItems[1..];
    }
  }
}
