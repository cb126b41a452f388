/** The skill index: the two container shapes `load_index` accepts
    (tools/skill_router.py:40-44) and the reading of each record's fields that
    `score_skill` and the fallback of `pick_skills` perform
    (tools/skill_router.py:67-69, 110). */
module Catalog {
  import opened Wrappers
  import opened Json

  /** One catalog record. A field that is absent, `null` or falsy reads as "",
      exactly as `skill.get(key) or ""` does. */
  datatype Skill = Skill(id: string, name: string, description: string, path: string)

  const SkillsKey := "skills"

  /** The pure part of `load_index`: the record list inside the decoded index
      document. */
  function CatalogOf(data: Value): (r: Value)
    ensures data.Object? && SkillsKey in data.fields ==> r == data.fields[SkillsKey]
    ensures data.Array? ==> r == data
    ensures !data.Array? && !(data.Object? && SkillsKey in data.fields) ==> r == Array([])
  {
    if data.Object? && SkillsKey in data.fields then data.fields[SkillsKey]
    else if data.Array? then data
    else Array([])
  }

  /** `fields.get(key) or ""` where the result must be text: None when the
      stored value is truthy but not a string (the source then fails calling
      `lower()` on it). */
  function FieldText(fields: map<string, Value>, key: string): (r: Option<string>)
    ensures key !in fields ==> r == Some("")
    ensures key in fields && fields[key].Str? ==> r == Some(fields[key].s)
    ensures key in fields && !Truthy(fields[key]) ==> r == Some("")
    ensures r.None? <==> key in fields && !fields[key].Str? && Truthy(fields[key])
  {
    if key !in fields then Some("")
    else match fields[key]
      case Str(s) => Some(s)
      case v => if Truthy(v) then None else Some("")
  }

  /** Reads one record the way `score_skill` does; None when the source would
      raise on it (a record that is not an object, or a text field holding a
      truthy non-string). `name` is only read when `id` is falsy; a record with
      neither reads with the identifier "". */
  function DecodeSkill(v: Value): (r: Option<Skill>)
    ensures r.Some? ==> v.Object?
    ensures r.Some? ==> Some(r.value.id) == FieldText(v.fields, "id")
    ensures r.Some? && r.value.id == "" ==> Some(r.value.name) == FieldText(v.fields, "name")
    ensures r.Some? ==> Some(r.value.description) == FieldText(v.fields, "description")
    ensures r.Some? ==> Some(r.value.path) == FieldText(v.fields, "path")
    ensures r.Some? <==>
      && v.Object?
      && FieldText(v.fields, "id").Some?
      && FieldText(v.fields, "description").Some?
      && FieldText(v.fields, "path").Some?
      && (FieldText(v.fields, "id").value == "" ==> FieldText(v.fields, "name").Some?)
  {
    match v
    case Object(f) =>
      var id := FieldText(f, "id");
      var name := FieldText(f, "name");
      var desc := FieldText(f, "description");
      var path := FieldText(f, "path");
      if id.None? || desc.None? || path.None? then None
      else if id.value == "" && name.None? then None
      else Some(Skill(id.value, name.GetOr(""), desc.value, path.value))
    case _ => None
  }

  /** Reads every record; None as soon as one cannot be read. */
  function DecodeAll(items: seq<Value>): (r: Option<seq<Skill>>)
    ensures r.Some? <==> forall i :: 0 <= i < |items| ==> DecodeSkill(items[i]).Some?
    ensures r.Some? ==> |r.value| == |items|
    ensures r.Some? ==> forall i :: 0 <= i < |items| ==> DecodeSkill(items[i]) == Some(r.value[i])
  {
    if items == [] then Some([])
    else match DecodeSkill(items[0])
      case None => None
      case Some(s) =>
        match DecodeAll(items[1..])
        case None => None
        case Some(rest) => Some([s] + rest)
  }

  /** The records `pick_skills` iterates over. Iterating an empty object or an
      empty string yields nothing; a non-empty one yields strings, which have no
      `get`; `null`, booleans and numbers are not iterable. */
  function DecodeSkills(v: Value): (r: Option<seq<Skill>>)
    ensures v.Array? ==> r == DecodeAll(v.items)
    ensures (v.Null? || v.Bool? || v.Int?) ==> r.None?
    ensures v.Object? ==> (r.Some? <==> v.fields == map[])
    ensures v.Str? ==> (r.Some? <==> v.s == [])
    ensures r.Some? && !v.Array? ==> r.value == []
  {
    match v
    case Array(items) => DecodeAll(items)
    case Object(f) => if f == map[] then Some([]) else None
    case Str(s) => if s == [] then Some([]) else None
    case _ => None
  }

  /** A record as the index file would hold it. */
  function Encode(s: Skill): Value {
    Object(map["id" := Str(s.id), "name" := Str(s.name),
               "description" := Str(s.description), "path" := Str(s.path)])
  }

  function EncodeAll(skills: seq<Skill>): (r: Value)
    ensures r.Array? && |r.items| == |skills|
    ensures forall i :: 0 <= i < |skills| ==> r.items[i] == Encode(skills[i])
  {
    Array(seq(|skills|, i requires 0 <= i < |skills| => Encode(skills[i])))
  }

  /** Reading back a written record gives the record. */
  lemma DecodeEncode(s: Skill)
    ensures DecodeSkill(Encode(s)) == Some(s)
  {
  }

  /** Both accepted wire shapes, `{"skills": [...]}` and a bare `[...]`, read
      back as the same record list; any other document is the empty catalog. */
  lemma CatalogRoundTrip(skills: seq<Skill>, extra: map<string, Value>)
    ensures DecodeSkills(CatalogOf(EncodeAll(skills))) == Some(skills)
    ensures DecodeSkills(CatalogOf(Object(extra[SkillsKey := EncodeAll(skills)]))) == Some(skills)
    ensures SkillsKey !in extra ==> DecodeSkills(CatalogOf(Object(extra))) == Some([])
  {
    var v := EncodeAll(skills);
    forall i | 0 <= i < |skills|
      ensures DecodeSkill(v.items[i]) == Some(skills[i])
    {
      DecodeEncode(skills[i]);
    }
    var r := DecodeAll(v.items);
    assert r.Some?;
    assert r.value == skills;
  }
}
