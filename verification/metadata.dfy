/** Per-token metadata: the trait record a token's JSON file resolves to and
    the path that file is fetched from. The fetch itself is not modelled. */
module Metadata {
  import opened Text
  import opened Numbers

  /** A flat mapping from layer name (`BODY`, `CLOTHING`, ...) to trait value. */
  type TraitValues = map<string, string>

  datatype TraitRecord = TraitRecord(id: int, values: TraitValues)

  datatype Attribute = Attribute(traitType: string, value: string)

  /** The two accepted shapes of a metadata file: an `attributes` array of
      `{trait_type, value}` pairs, or an already flat object. */
  datatype MetadataJson =
    | AttributeList(attributes: seq<Attribute>)
    | FlatObject(fields: TraitValues)

  /** Attribute `i` is the last one carrying its trait type. */
  ghost predicate LastOfType(attrs: seq<Attribute>, i: int) {
    && 0 <= i < |attrs|
    && forall j :: i < j < |attrs| ==> attrs[j].traitType != attrs[i].traitType
  }

  /** `attributesToRecord`: the attributes written into a fresh object in
      array order. */
  function AttributesToRecord(attrs: seq<Attribute>): TraitValues
    decreases |attrs|
  {
    if |attrs| == 0 then map[]
    else
      var last := attrs[|attrs| - 1];
      AttributesToRecord(attrs[..|attrs| - 1])[last.traitType := last.value]
  }

  /** Some attribute carries trait type `k`. */
  ghost predicate Occurs(attrs: seq<Attribute>, k: string) {
    exists i :: 0 <= i < |attrs| && attrs[i].traitType == k
  }

  /** The trait types of a list occur in it with its last element added. */
  lemma OccursSnoc(attrs: seq<Attribute>, k: string)
    requires |attrs| > 0
    ensures Occurs(attrs, k) <==> Occurs(attrs[..|attrs| - 1], k) || attrs[|attrs| - 1].traitType == k
  {
    var init := attrs[..|attrs| - 1];
    if Occurs(init, k) {
      var i :| 0 <= i < |init| && init[i].traitType == k;
      assert attrs[i] == init[i];
    }
    if Occurs(attrs, k) && attrs[|attrs| - 1].traitType != k {
      var i :| 0 <= i < |attrs| && attrs[i].traitType == k;
      assert init[i] == attrs[i];
    }
  }

  /** The record has one key per trait type that occurs. */
  lemma {:induction false} AttributesToRecordKeys(attrs: seq<Attribute>)
    ensures forall k :: k in AttributesToRecord(attrs) <==> Occurs(attrs, k)
    decreases |attrs|
  {
    if |attrs| > 0 {
      var init := attrs[..|attrs| - 1];
      var last := attrs[|attrs| - 1];
      AttributesToRecordKeys(init);
      var r := AttributesToRecord(attrs);
      assert r == AttributesToRecord(init)[last.traitType := last.value];
      forall k
        ensures k in r <==> Occurs(attrs, k)
      {
        OccursSnoc(attrs, k);
      }
    }
  }

  /** Each key holds the value of the last attribute of its type. */
  lemma {:induction false} AttributesToRecordLast(attrs: seq<Attribute>)
    ensures forall i :: LastOfType(attrs, i) ==>
      attrs[i].traitType in AttributesToRecord(attrs) && AttributesToRecord(attrs)[attrs[i].traitType] == attrs[i].value
    decreases |attrs|
  {
    if |attrs| > 0 {
      var init := attrs[..|attrs| - 1];
      var last := attrs[|attrs| - 1];
      AttributesToRecordLast(init);
      var r := AttributesToRecord(attrs);
      assert r == AttributesToRecord(init)[last.traitType := last.value];
      forall i | LastOfType(attrs, i)
        ensures attrs[i].traitType in r && r[attrs[i].traitType] == attrs[i].value
      {
        if i < |attrs| - 1 {
          assert init[i] == attrs[i];
          assert LastOfType(init, i) by {
            forall j | i < j < |init|
              ensures init[j].traitType != init[i].traitType
            {
              assert init[j] == attrs[j];
            }
          }
        }
      }
    }
  }

  /** The trait values of a fetched metadata file. */
  function RecordValues(json: MetadataJson): TraitValues {
    match json
    case AttributeList(attrs) => AttributesToRecord(attrs)
    case FlatObject(fields) => fields
  }

  /** `fetchRecord` once its JSON has arrived. */
  function FetchedRecord(id: int, json: MetadataJson): TraitRecord {
    TraitRecord(id, RecordValues(json))
  }

  /** `META_TEMPLATE`. */
  const MetaTemplate: string := "metadata/{id}.json"

  /** `expandTemplate`: every `{id}` replaced by the decimal id. */
  function ExpandTemplate(template: string, id: int): string {
    ReplaceAll(template, "{id}", IntToString(id))
  }

  /** A token's metadata lives at `metadata/<id>.json`. */
  lemma MetadataPath(id: int)
    ensures ExpandTemplate(MetaTemplate, id) == "metadata/" + IntToString(id) + ".json"
  {
    assert MetaTemplate == "metadata/" + "{id}" + ".json";
    ReplaceAllSingle("metadata/", "{id}", ".json", IntToString(id));
  }
}
