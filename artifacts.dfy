/**
  The file contents both scripts write: the extracted value spread into a
  fresh object, with `_metadata` recording where and when it came from.
 */
module Artifacts {
  import opened JsValues

  const PdfUrl := "https://servis.ssz-slo.si/porocilo.pdf"
  const DailyScript := "extract-pdf-data.js"
  const PricingScript := "extract-pricing-data.js"
  const MetadataKey := "_metadata"

  /** `{ source, extractedAt, script }`. */
  function Metadata(source: string, extractedAt: string, script: string): Json {
    JObject(map["source" := JString(source), "extractedAt" := JString(extractedAt), "script" := JString(script)])
  }

  /** `{ ...v, _metadata: { source, extractedAt, script } }`. */
  function WithMetadata(v: Json, source: string, extractedAt: string, script: string): (r: Json)
    ensures r.JObject? && r.fields.Keys == Spread(v).Keys + {MetadataKey}
    ensures r.fields[MetadataKey] == Metadata(source, extractedAt, script)
    ensures forall k :: k in Spread(v) && k != MetadataKey ==> r.fields[k] == Spread(v)[k]
  {
    JObject(Spread(v)[MetadataKey := Metadata(source, extractedAt, script)])
  }

  /** The file's contents without its provenance record. */
  function WithoutMetadata(r: Json): Json
    requires r.JObject?
  {
    JObject(r.fields - {MetadataKey})
  }

  /** An extracted object is recovered from the file written for it, unless it
      carried a `_metadata` key of its own, which the record replaces. */
  lemma MetadataRoundTrip(fields: map<string, Json>, source: string, extractedAt: string, script: string)
    requires MetadataKey !in fields
    ensures WithoutMetadata(WithMetadata(JObject(fields), source, extractedAt, script)) == JObject(fields)
  {
    var r := WithMetadata(JObject(fields), source, extractedAt, script);
    assert r.fields - {MetadataKey} == fields;
  }

  /** Stamping a stamped file again replaces the old record and keeps the rest. */
  lemma RestampReplaces(v: Json, s1: string, t1: string, c1: string, s2: string, t2: string, c2: string)
    ensures WithMetadata(WithMetadata(v, s1, t1, c1), s2, t2, c2) == WithMetadata(v, s2, t2, c2)
  {
    var m := Spread(v);
    var once := WithMetadata(v, s1, t1, c1);
    assert once == JObject(m[MetadataKey := Metadata(s1, t1, c1)]);
    assert Spread(once) == once.fields;
    UpdateTwice(m, MetadataKey, Metadata(s1, t1, c1), Metadata(s2, t2, c2));
  }

  /** A second write to a key replaces the first. */
  lemma UpdateTwice(m: map<string, Json>, k: string, x: Json, y: Json)
    ensures m[k := x][k := y] == m[k := y]
  {
  }

  /** An array answer is written with its elements under "0", "1", .... */
  lemma ArrayAnswerIsIndexed(items: seq<Json>, i: nat, source: string, extractedAt: string, script: string)
    requires i < |items|
    ensures WithMetadata(JArray(items), source, extractedAt, script).fields[Decimal(i)] == items[i]
  {
    assert Decimal(i) != MetadataKey by { assert Decimal(i)[0] != '_'; }
  }

  /** A null, boolean or numeric answer leaves only the record. */
  lemma ScalarAnswerKeepsOnlyMetadata(v: Json, source: string, extractedAt: string, script: string)
    requires v.JNull? || v.JBool? || v.JNumber?
    ensures WithMetadata(v, source, extractedAt, script) == JObject(map[MetadataKey := Metadata(source, extractedAt, script)])
  {
  }
}
