/**
 * The removable tags above a result list, one per active filter value, and
 * the removal of one of them. The list page and the favourites page share
 * both rules word for word.
 */
module FilterTags {
  import opened Wrappers
  import opened Seqs
  import opened FilterPokemon
  import opened TranslatePokemon

  /** The `filterType` of a tag. */
  datatype TagKind = TypesTag | GenerationsTag | HeightTag | WeightTag

  /**
   * A tag: its kind, its value and, for type and generation tags, its
   * label (`caption`). The height and weight labels format floating-point
   * bounds and are not modelled.
   */
  datatype FilterTag = FilterTag(kind: TagKind, value: string, caption: Option<string>)

  /** `TYPE_TRANSLATIONS[type]`, which reads "undefined" for an unlisted type. */
  function TypeLabel(typeName: string): string {
    (if typeName in TYPE_TRANSLATIONS then TYPE_TRANSLATIONS[typeName] else "undefined") + "タイプ"
  }

  function TypeTag(typeName: string): FilterTag {
    FilterTag(TypesTag, typeName, Some(TypeLabel(typeName)))
  }

  function GenerationTag(generation: string): FilterTag {
    FilterTag(GenerationsTag, generation, Some(GetGenerationLabel(generation)))
  }

  /** The tags of one list selection: none unless the list is present and non-empty. */
  function SelectionTags(selection: Option<seq<string>>, tag: string -> FilterTag): seq<FilterTag> {
    if selection.Some? && |selection.value| > 0 then Map(tag, selection.value) else []
  }

  /** `getActiveFilterTags()`: types, then generations, then height, then weight. */
  function ActiveFilterTags(conditions: Option<Conditions>): (r: seq<FilterTag>)
    ensures conditions.None? ==> r == []
  {
    if conditions.None? then []
    else
      var c := conditions.value;
      SelectionTags(c.types, TypeTag) + (SelectionTags(c.generations, GenerationTag) + RangeTags(c))
  }

  /** The height tag and the weight tag, each when one of its bounds is defined. */
  function RangeTags(c: Conditions): seq<FilterTag> {
    (if c.heightMin.Some? || c.heightMax.Some? then [FilterTag(HeightTag, "height", None)] else [])
    + (if c.weightMin.Some? || c.weightMax.Some? then [FilterTag(WeightTag, "weight", None)] else [])
  }

  function SelectionSize(selection: Option<seq<string>>): nat {
    if selection.Some? then |selection.value| else 0
  }

  /**
   * One tag per selected type and per selected generation, plus one for
   * height and one for weight when either of their bounds is defined.
   */
  lemma ActiveFilterTagsCount(c: Conditions)
    ensures |ActiveFilterTags(Some(c))| == SelectionSize(c.types) + SelectionSize(c.generations)
      + (if c.heightMin.Some? || c.heightMax.Some? then 1 else 0)
      + (if c.weightMin.Some? || c.weightMax.Some? then 1 else 0)
  {
  }

  /** The number of keys the conditions object holds. */
  function KeyCount(c: Conditions): nat {
    (if c.types.Some? then 1 else 0) + (if c.heightMin.Some? then 1 else 0)
    + (if c.heightMax.Some? then 1 else 0) + (if c.weightMin.Some? then 1 else 0)
    + (if c.weightMax.Some? then 1 else 0) + (if c.generations.Some? then 1 else 0)
  }

  /** A list selection without `value`, deleted once it is empty. */
  function WithoutValue(selection: seq<string>, value: string): (r: Option<seq<string>>)
    ensures r.Some? ==> |r.value| > 0 && value !in r.value
  {
    var rest := RemoveAll(selection, value);
    if |rest| == 0 then None else Some(rest)
  }

  /** The result of a tag removal; reading a missing list raises a `TypeError`. */
  datatype Removal = Updated(conditions: Option<Conditions>) | TypeError

  /**
   * `handleRemoveFilterTag(filterType, value)` on the conditions: `None`
   * when they are null (the handler returns early), otherwise the copy
   * without the value, or null when no key remains.
   */
  function RemoveTag(conditions: Option<Conditions>, kind: TagKind, value: string): (r: Removal)
    ensures conditions.None? ==> r == Updated(None)
    ensures r.Updated? && r.conditions.Some? ==> KeyCount(r.conditions.value) > 0
  {
    if conditions.None? then Updated(None)
    else
      var c := conditions.value;
      if kind == TypesTag && c.types.None? then TypeError
      else if kind == GenerationsTag && c.generations.None? then TypeError
      else
        var next :=
          if kind == TypesTag then c.(types := WithoutValue(c.types.value, value))
          else if kind == GenerationsTag then c.(generations := WithoutValue(c.generations.value, value))
          else c;
        Updated(if KeyCount(next) > 0 then Some(next) else None)
  }

  /** Tag removal raises only for a list key that is missing. */
  lemma RemoveTagFails(conditions: Option<Conditions>, kind: TagKind, value: string)
    ensures RemoveTag(conditions, kind, value).TypeError? <==>
      conditions.Some? && ((kind == TypesTag && conditions.value.types.None?)
        || (kind == GenerationsTag && conditions.value.generations.None?))
  {
  }

  /** The conditions become null exactly when the removal leaves no key. */
  lemma RemoveTagCollapses(c: Conditions, kind: TagKind, value: string)
    requires RemoveTag(Some(c), kind, value).Updated?
    ensures RemoveTag(Some(c), kind, value).conditions.None? <==>
      (if kind == TypesTag then KeyCount(c) == 1 && |RemoveAll(c.types.value, value)| == 0
       else if kind == GenerationsTag then KeyCount(c) == 1 && |RemoveAll(c.generations.value, value)| == 0
       else KeyCount(c) == 0)
  {
  }

  /**
   * Removing a type tag takes the value out of the type list, keeps every
   * other type, and leaves every other key as it was.
   */
  lemma RemoveTypeTag(c: Conditions, value: string)
    requires c.types.Some?
    ensures RemoveTag(Some(c), TypesTag, value).Updated?
    ensures var r := RemoveTag(Some(c), TypesTag, value).conditions;
      r.Some? ==>
        r.value == c.(types := r.value.types)
        && (r.value.types.Some? ==> forall t :: t in r.value.types.value <==> t in c.types.value && t != value)
        && (r.value.types.None? ==> forall t :: t in c.types.value ==> t == value)
  {
    forall t ensures t in RemoveAll(c.types.value, value) <==> t in c.types.value && t != value {
      RemoveAllMembership(c.types.value, value, t);
    }
  }

  /** Removing a generation tag does the same to the generation list. */
  lemma RemoveGenerationTag(c: Conditions, value: string)
    requires c.generations.Some?
    ensures RemoveTag(Some(c), GenerationsTag, value).Updated?
    ensures var r := RemoveTag(Some(c), GenerationsTag, value).conditions;
      r.Some? ==>
        r.value == c.(generations := r.value.generations)
        && (r.value.generations.Some? ==> forall g :: g in r.value.generations.value <==> g in c.generations.value && g != value)
        && (r.value.generations.None? ==> forall g :: g in c.generations.value ==> g == value)
  {
    forall g ensures g in RemoveAll(c.generations.value, value) <==> g in c.generations.value && g != value {
      RemoveAllMembership(c.generations.value, value, g);
    }
  }

  /** Keeps every tag except those of the given kind and value. */
  function Dropping(kind: TagKind, value: string): FilterTag -> bool {
    (tag: FilterTag) => !(tag.kind == kind && tag.value == value)
  }

  /** Mapping a tag builder over the list without `value` drops exactly that value's tags. */
  lemma TagsWithoutValue(s: seq<string>, tag: string -> FilterTag, kind: TagKind, value: string)
    requires forall x :: tag(x).kind == kind && tag(x).value == x
    ensures Map(tag, RemoveAll(s, value)) == Filter(Dropping(kind, value), Map(tag, s))
  {
    FilterMap(tag, Other(value), Dropping(kind, value), s);
  }

  /** Tags of another kind survive the removal. */
  lemma OtherKindsKept(tags: seq<FilterTag>, kind: TagKind, value: string)
    requires forall i :: 0 <= i < |tags| ==> tags[i].kind != kind
    ensures Filter(Dropping(kind, value), tags) == tags
  {
    FilterAllKept(Dropping(kind, value), tags);
  }

  /** Conditions without a key show no tag. */
  lemma NoKeysNoTags(c: Conditions)
    requires KeyCount(c) == 0
    ensures ActiveFilterTags(Some(c)) == []
  {
  }

  /** The tags of a selection all have the kind of their builder. */
  lemma SelectionTagsKind(selection: Option<seq<string>>, tag: string -> FilterTag, kind: TagKind)
    requires forall x :: tag(x).kind == kind
    ensures forall i :: 0 <= i < |SelectionTags(selection, tag)| ==> SelectionTags(selection, tag)[i].kind == kind
  {
  }

  /** The tags shown after a removal are those of the copy, unless it collapsed to null. */
  lemma TagsAfterRemoval(c: Conditions, next: Conditions)
    ensures ActiveFilterTags(if KeyCount(next) > 0 then Some(next) else None) == ActiveFilterTags(Some(next))
  {
    if KeyCount(next) == 0 {
      NoKeysNoTags(next);
    }
  }

  /** The tags of a selection without `value` are the old tags minus that value's. */
  lemma SelectionTagsWithout(selection: seq<string>, tag: string -> FilterTag, kind: TagKind, value: string)
    requires forall x :: tag(x).kind == kind && tag(x).value == x
    ensures SelectionTags(WithoutValue(selection, value), tag)
      == Filter(Dropping(kind, value), SelectionTags(Some(selection), tag))
  {
    TagsWithoutValue(selection, tag, kind, value);
    if selection == [] {
      assert Map(tag, selection) == [];
    }
  }

  /** The tags a removal leaves: the copy's tags, built from the three parts. */
  lemma TagsOfCopy(c: Conditions, next: Conditions)
    requires RangeTags(next) == RangeTags(c)
    ensures ActiveFilterTags(if KeyCount(next) > 0 then Some(next) else None)
      == SelectionTags(next.types, TypeTag) + (SelectionTags(next.generations, GenerationTag) + RangeTags(c))
  {
    TagsAfterRemoval(c, next);
  }

  /** Every tag a builder makes has the builder's kind and carries its own value. */
  lemma TagBuildersShape()
    ensures forall x :: TypeTag(x).kind == TypesTag && TypeTag(x).value == x
    ensures forall x :: GenerationTag(x).kind == GenerationsTag && GenerationTag(x).value == x
  {
  }

  /** Dropping a value's tags from a selection's tags followed by tags of other kinds. */
  lemma SelectionThenOthers(selection: seq<string>, tag: string -> FilterTag, kind: TagKind, value: string, others: seq<FilterTag>)
    requires forall x :: tag(x).kind == kind && tag(x).value == x
    requires forall i :: 0 <= i < |others| ==> others[i].kind != kind
    ensures Filter(Dropping(kind, value), SelectionTags(Some(selection), tag) + others)
      == SelectionTags(WithoutValue(selection, value), tag) + others
  {
    FilterConcat(Dropping(kind, value), SelectionTags(Some(selection), tag), others);
    OtherKindsKept(others, kind, value);
    SelectionTagsWithout(selection, tag, kind, value);
  }

  /**
   * Removing a shown type tag makes exactly that tag (every copy of it)
   * disappear and leaves every other tag in place and in order.
   */
  lemma RemovingTypeTagDropsIt(c: Conditions, value: string)
    requires c.types.Some?
    ensures RemoveTag(Some(c), TypesTag, value).Updated?
    ensures ActiveFilterTags(RemoveTag(Some(c), TypesTag, value).conditions)
      == Filter(Dropping(TypesTag, value), ActiveFilterTags(Some(c)))
  {
    var next := c.(types := WithoutValue(c.types.value, value));
    assert RemoveTag(Some(c), TypesTag, value).conditions == if KeyCount(next) > 0 then Some(next) else None;
    assert RangeTags(next) == RangeTags(c);
    TagsOfCopy(c, next);
    var rest := SelectionTags(c.generations, GenerationTag) + RangeTags(c);
    TagBuildersShape();
    SelectionTagsKind(c.generations, GenerationTag, GenerationsTag);
    SelectionThenOthers(c.types.value, TypeTag, TypesTag, value, rest);
  }

  /** Removing a shown generation tag does the same for that generation. */
  lemma RemovingGenerationTagDropsIt(c: Conditions, value: string)
    requires c.generations.Some?
    ensures RemoveTag(Some(c), GenerationsTag, value).Updated?
    ensures ActiveFilterTags(RemoveTag(Some(c), GenerationsTag, value).conditions)
      == Filter(Dropping(GenerationsTag, value), ActiveFilterTags(Some(c)))
  {
    var next := c.(generations := WithoutValue(c.generations.value, value));
    assert RemoveTag(Some(c), GenerationsTag, value).conditions == if KeyCount(next) > 0 then Some(next) else None;
    assert RangeTags(next) == RangeTags(c);
    TagsOfCopy(c, next);
    var drop := Dropping(GenerationsTag, value);
    var typeTags := SelectionTags(c.types, TypeTag);
    var rest := SelectionTags(c.generations, GenerationTag) + RangeTags(c);
    TagBuildersShape();
    SelectionThenOthers(c.generations.value, GenerationTag, GenerationsTag, value, RangeTags(c));
    SelectionTagsKind(c.types, TypeTag, TypesTag);
    OtherKindsKept(typeTags, GenerationsTag, value);
    FilterConcat(drop, typeTags, rest);
  }

  /** Removing a height or weight tag leaves every tag shown, that one included. */
  lemma RemovingRangeTagKeepsIt(c: Conditions, kind: TagKind, value: string)
    requires kind == HeightTag || kind == WeightTag
    ensures ActiveFilterTags(RemoveTag(Some(c), kind, value).conditions) == ActiveFilterTags(Some(c))
  {
  }
}
