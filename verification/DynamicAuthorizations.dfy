/**
 The condition that grants attach to a request: it always grants, and on the way writes the grant's filters,
 assertions and metadata into the request's context, unless an earlier grant has done so.
*/
module DynamicAuthorizations {
  import opened Options

  datatype Value = Names(names: seq<string>) | Meta(entries: map<string, string>) | Flag(on: bool) | Text(s: string)

  datatype Slot = FILTERS | ASSERTS | METADATA

  /** The property names of a context: those the condition writes, and any other. */
  datatype Property = ValueOf(slot: Slot) | SetFlag(slot: Slot) | Other(name: string)

  /** The properties of a context object. */
  type Data = map<Property, Value>

  datatype Args = Args(
    filters: Option<seq<string>>, asserts: Option<seq<string>>, metadata: Option<map<string, string>>)

  function EmptyOf(slot: Slot): Value {
    if slot.METADATA? then Meta(map[]) else Names([])
  }

  function Given(args: Args, slot: Slot): (v: Option<Value>)
    ensures v.Some? ==> Truthy(v.value)
  {
    match slot
    case FILTERS => if args.filters.Some? then Some(Names(args.filters.value)) else None
    case ASSERTS => if args.asserts.Some? then Some(Names(args.asserts.value)) else None
    case METADATA => if args.metadata.Some? then Some(Meta(args.metadata.value)) else None
  }

  predicate Truthy(v: Value) {
    match v
    case Flag(on) => on
    case Text(s) => s != ""
    case _ => true
  }

  /** Whether a property is there and counts as true. */
  predicate Has(d: Data, key: Property) {
    key in d && Truthy(d[key])
  }

  /** What the condition does to one of the three slots. */
  function Enrich(d: Data, args: Args, slot: Slot): Data {
    var e := if Has(d, ValueOf(slot)) then d else d[ValueOf(slot) := EmptyOf(slot)];
    if !Has(e, SetFlag(slot)) && Given(args, slot).Some? then
      e[ValueOf(slot) := Given(args, slot).value][SetFlag(slot) := Flag(true)]
    else e
  }

  /** The whole condition. */
  function Conditioned(d: Data, args: Args): Data {
    Enrich(Enrich(Enrich(d, args, FILTERS), args, ASSERTS), args, METADATA)
  }

  /** The context after a list of conditions, in order. */
  function ConditionedAll(d: Data, list: seq<Args>): Data {
    if list == [] then d else Conditioned(ConditionedAll(d, list[..|list| - 1]), list[|list| - 1])
  }

  /** The first value given for a slot in a list of conditions. */
  function FirstGiven(list: seq<Args>, slot: Slot): Option<Value> {
    if list == [] then None
    else if FirstGiven(list[..|list| - 1], slot).Some? then FirstGiven(list[..|list| - 1], slot)
    else Given(list[|list| - 1], slot)
  }

  /** What a slot holds, or would be given if it holds nothing. */
  function Kept(d: Data, slot: Slot): Value {
    if Has(d, ValueOf(slot)) then d[ValueOf(slot)] else EmptyOf(slot)
  }

  ghost predicate SameSlot(d: Data, e: Data, slot: Slot) {
    && (ValueOf(slot) in d <==> ValueOf(slot) in e) && (ValueOf(slot) in d ==> d[ValueOf(slot)] == e[ValueOf(slot)])
    && (SetFlag(slot) in d <==> SetFlag(slot) in e) && (SetFlag(slot) in d ==> d[SetFlag(slot)] == e[SetFlag(slot)])
  }

  lemma EnrichOther(d: Data, args: Args, a: Slot, b: Slot)
    requires a != b
    ensures SameSlot(d, Enrich(d, args, a), b)
  {
  }

  lemma EnrichOwn(d: Data, args: Args, slot: Slot)
    ensures var e := Enrich(d, args, slot); var given := Given(args, slot);
      && Has(e, ValueOf(slot))
      && e[ValueOf(slot)] == (if !Has(d, SetFlag(slot)) && given.Some? then given.value else Kept(d, slot))
      && (Has(e, SetFlag(slot)) <==> Has(d, SetFlag(slot)) || given.Some?)
  {
  }

  /** A condition treats the three slots independently. */
  lemma ConditionedSlot(d: Data, args: Args, slot: Slot)
    ensures var e := Conditioned(d, args); var given := Given(args, slot);
      && Has(e, ValueOf(slot))
      && e[ValueOf(slot)] == (if !Has(d, SetFlag(slot)) && given.Some? then given.value else Kept(d, slot))
      && (Has(e, SetFlag(slot)) <==> Has(d, SetFlag(slot)) || given.Some?)
  {
    var d1 := Enrich(d, args, FILTERS);
    var d2 := Enrich(d1, args, ASSERTS);
    match slot {
      case FILTERS =>
        EnrichOwn(d, args, slot);
        EnrichOther(d1, args, ASSERTS, slot);
        EnrichOther(d2, args, METADATA, slot);
      case ASSERTS =>
        EnrichOther(d, args, FILTERS, slot);
        EnrichOwn(d1, args, slot);
        EnrichOther(d2, args, METADATA, slot);
      case METADATA =>
        EnrichOther(d, args, FILTERS, slot);
        EnrichOther(d1, args, ASSERTS, slot);
        EnrichOwn(d2, args, slot);
    }
  }

  /** First writer wins: over any list of conditions, a slot that was already set keeps its value; otherwise
      it gets the first value given, and is then set; and if none is given it stays unset, with what it had
      or the empty value. */
  lemma {:induction false} FirstWriterWins(d: Data, list: seq<Args>, slot: Slot)
    requires list != []
    ensures var r := ConditionedAll(d, list); var first := FirstGiven(list, slot);
      && Has(r, ValueOf(slot))
      && r[ValueOf(slot)] == (if !Has(d, SetFlag(slot)) && first.Some? then first.value else Kept(d, slot))
      && (Has(r, SetFlag(slot)) <==> Has(d, SetFlag(slot)) || first.Some?)
  {
    var front, last := list[..|list| - 1], list[|list| - 1];
    ConditionedSlot(ConditionedAll(d, front), last, slot);
    if front != [] {
      FirstWriterWins(d, front, slot);
    }
  }

  // What this says of filters, assertions and metadata, each told by its own name

  /** Neither missing, false nor the empty text. */
  predicate IsThere(d: Data, key: Property) {
    key in d && d[key] != Flag(false) && d[key] != Text("")
  }

  lemma {:induction false} FirstGivenIs(list: seq<Args>, slot: Slot, i: nat)
    requires i < |list| && Given(list[i], slot).Some?
    requires forall j :: 0 <= j < i ==> Given(list[j], slot).None?
    ensures FirstGiven(list, slot) == Given(list[i], slot)
  {
    if i < |list| - 1 {
      FirstGivenIs(list[..|list| - 1], slot, i);
    } else {
      NoneGivenIs(list[..i], slot);
    }
  }

  lemma {:induction false} NoneGivenIs(list: seq<Args>, slot: Slot)
    requires forall j :: 0 <= j < |list| ==> Given(list[j], slot).None?
    ensures FirstGiven(list, slot) == None
  {
    if list != [] {
      NoneGivenIs(list[..|list| - 1], slot);
    }
  }

  /** Filters end up as those of the first grant that gives any, unless they were set before. */
  lemma FirstFiltersWin(d: Data, list: seq<Args>, i: nat)
    requires i < |list| && list[i].filters.Some? && !IsThere(d, SetFlag(FILTERS))
    requires forall j :: 0 <= j < i ==> list[j].filters.None?
    ensures ValueOf(FILTERS) in ConditionedAll(d, list)
    ensures ConditionedAll(d, list)[ValueOf(FILTERS)] == Names(list[i].filters.value)
    ensures IsThere(ConditionedAll(d, list), SetFlag(FILTERS))
  {
    FirstGivenIs(list, FILTERS, i);
    FirstWriterWins(d, list, FILTERS);
  }

  lemma FirstAssertsWin(d: Data, list: seq<Args>, i: nat)
    requires i < |list| && list[i].asserts.Some? && !IsThere(d, SetFlag(ASSERTS))
    requires forall j :: 0 <= j < i ==> list[j].asserts.None?
    ensures ValueOf(ASSERTS) in ConditionedAll(d, list)
    ensures ConditionedAll(d, list)[ValueOf(ASSERTS)] == Names(list[i].asserts.value)
    ensures IsThere(ConditionedAll(d, list), SetFlag(ASSERTS))
  {
    FirstGivenIs(list, ASSERTS, i);
    FirstWriterWins(d, list, ASSERTS);
  }

  lemma FirstMetadataWins(d: Data, list: seq<Args>, i: nat)
    requires i < |list| && list[i].metadata.Some? && !IsThere(d, SetFlag(METADATA))
    requires forall j :: 0 <= j < i ==> list[j].metadata.None?
    ensures ValueOf(METADATA) in ConditionedAll(d, list)
    ensures ConditionedAll(d, list)[ValueOf(METADATA)] == Meta(list[i].metadata.value)
    ensures IsThere(ConditionedAll(d, list), SetFlag(METADATA))
  {
    FirstGivenIs(list, METADATA, i);
    FirstWriterWins(d, list, METADATA);
  }

  /** What the property of that name held, or the empty value if it was missing, false or the empty text. */
  function HeldOr(d: Data, key: Property, empty: Value): Value {
    if IsThere(d, key) then d[key] else empty
  }

  /** Filters that were set before, or that no grant gives, are left, or made an empty list if there are none. */
  lemma FiltersStay(d: Data, list: seq<Args>)
    requires list != []
    requires IsThere(d, SetFlag(FILTERS)) || forall j :: 0 <= j < |list| ==> list[j].filters.None?
    ensures ValueOf(FILTERS) in ConditionedAll(d, list)
    ensures ConditionedAll(d, list)[ValueOf(FILTERS)] == HeldOr(d, ValueOf(FILTERS), Names([]))
    ensures IsThere(ConditionedAll(d, list), SetFlag(FILTERS)) <==> IsThere(d, SetFlag(FILTERS))
  {
    if !IsThere(d, SetFlag(FILTERS)) {
      NoneGivenIs(list, FILTERS);
    }
    FirstWriterWins(d, list, FILTERS);
  }

  lemma AssertsStay(d: Data, list: seq<Args>)
    requires list != []
    requires IsThere(d, SetFlag(ASSERTS)) || forall j :: 0 <= j < |list| ==> list[j].asserts.None?
    ensures ValueOf(ASSERTS) in ConditionedAll(d, list)
    ensures ConditionedAll(d, list)[ValueOf(ASSERTS)] == HeldOr(d, ValueOf(ASSERTS), Names([]))
    ensures IsThere(ConditionedAll(d, list), SetFlag(ASSERTS)) <==> IsThere(d, SetFlag(ASSERTS))
  {
    if !IsThere(d, SetFlag(ASSERTS)) {
      NoneGivenIs(list, ASSERTS);
    }
    FirstWriterWins(d, list, ASSERTS);
  }

  lemma MetadataStays(d: Data, list: seq<Args>)
    requires list != []
    requires IsThere(d, SetFlag(METADATA)) || forall j :: 0 <= j < |list| ==> list[j].metadata.None?
    ensures ValueOf(METADATA) in ConditionedAll(d, list)
    ensures ConditionedAll(d, list)[ValueOf(METADATA)] == HeldOr(d, ValueOf(METADATA), Meta(map[]))
    ensures IsThere(ConditionedAll(d, list), SetFlag(METADATA)) <==> IsThere(d, SetFlag(METADATA))
  {
    if !IsThere(d, SetFlag(METADATA)) {
      NoneGivenIs(list, METADATA);
    }
    FirstWriterWins(d, list, METADATA);
  }

  /** No property is ever removed. */
  lemma {:induction false} NoneRemoved(d: Data, list: seq<Args>, key: Property)
    requires key in d
    ensures key in ConditionedAll(d, list)
  {
    if list != [] {
      NoneRemoved(d, list[..|list| - 1], key);
    }
  }

  lemma ConditionedOther(d: Data, args: Args, name: string)
    ensures Other(name) in Conditioned(d, args) <==> Other(name) in d
    ensures Other(name) in d ==> Conditioned(d, args)[Other(name)] == d[Other(name)]
  {
  }

  /** Properties outside the three slots are left alone. */
  lemma {:induction false} OthersKept(d: Data, list: seq<Args>, name: string)
    ensures Other(name) in ConditionedAll(d, list) <==> Other(name) in d
    ensures Other(name) in d ==> ConditionedAll(d, list)[Other(name)] == d[Other(name)]
  {
    if list != [] {
      OthersKept(d, list[..|list| - 1], name);
      ConditionedOther(ConditionedAll(d, list[..|list| - 1]), list[|list| - 1], name);
    }
  }

  /** A slot that no condition of a list will write: it holds something, and it is set already or none is given. */
  predicate Settled(d: Data, list: seq<Args>, slot: Slot) {
    Has(d, ValueOf(slot)) && (Has(d, SetFlag(slot)) || FirstGiven(list, slot).None?)
  }

  predicate AllSettled(d: Data, list: seq<Args>) {
    list == [] || (Settled(d, list, FILTERS) && Settled(d, list, ASSERTS) && Settled(d, list, METADATA))
  }

  lemma {:induction false} SettledStays(d: Data, list: seq<Args>)
    requires AllSettled(d, list)
    ensures ConditionedAll(d, list) == d
  {
    if list != [] {
      SettledStays(d, list[..|list| - 1]);
    }
  }

  /** A list of conditions leaves a context as it is if and only if it is empty or all three slots are settled. */
  lemma UntouchedExactlyWhenSettled(d: Data, list: seq<Args>)
    ensures ConditionedAll(d, list) == d <==> AllSettled(d, list)
  {
    if AllSettled(d, list) {
      SettledStays(d, list);
    } else if ConditionedAll(d, list) == d {
      FirstWriterWins(d, list, FILTERS);
      FirstWriterWins(d, list, ASSERTS);
      FirstWriterWins(d, list, METADATA);
    }
  }
}
