/** The value that the stub of the language model makes from a JSON schema, and when it is valid for it
    (sections 6.1.1, 6.1.2, 6.4.2 and 6.5.3 of JSON Schema Validation 2020-12). */
module SchemaInstance {
  import opened Common

  datatype Json = Null | Bool(b: bool) | Number(n: int) | Text(s: string) | Array(items: seq<Json>) | Object(fields: seq<Field>)

  datatype Field = Field(name: string, value: Json)

  datatype Type = ObjectType | ArrayType | NumberType | IntegerType | BooleanType | NullType | StringType | UnknownType

  /** The `type` keyword: absent, one type, or a list. */
  datatype Types = Any | One(type_: Type) | Many(types: seq<Type>)

  datatype Property = Property(name: string, schema: Schema)

  /** The keywords that are read, and `required`. */
  datatype Schema = Schema(values: Option<seq<Json>>, types: Types, properties: seq<Property>, required: seq<string>,
                           items: Option<Schema>, minItems: Option<nat>)

  // ----- the instance -----

  /** The first type; nothing for an empty list, whose first element does not exist. */
  function Kind(s: Schema): Option<Types> {
    match s.types
    case Many(types) => if types == [] then None else Some(One(types[0]))
    case other => Some(other)
  }

  /** `minItems`, or one. */
  function ItemCount(s: Schema): nat {
    match s.minItems case Some(n) => n case None => 1
  }

  /** A value for a schema; there is none where the original raises. */
  function Instance(s: Schema, name: string): Option<Json>
    decreases s, |s.properties| + 2
  {
    match s.values
    case Some(values) => if values == [] then None else Some(values[0])
    case None =>
      match Kind(s)
      case None => None
      case Some(One(ObjectType)) =>
        (match Fields(s, |s.properties|) case None => None case Some(fields) => Some(Object(fields)))
      case Some(One(ArrayType)) =>
        if ItemCount(s) == 0 then Some(Array([]))
        else (match (if s.items.Some? then Instance(s.items.value, name) else Some(Stub(name)))
              case None => None
              case Some(item) => Some(Array(Repeat(item, ItemCount(s)))))
      case Some(One(NumberType)) => Some(Number(0))
      case Some(One(IntegerType)) => Some(Number(0))
      case Some(One(BooleanType)) => Some(Bool(false))
      case Some(One(NullType)) => Some(Null)
      case _ => Some(Stub(name))
  }

  /** A text that names the property. */
  function Stub(name: string): Json { Text("stub: " + name) }

  function Repeat(item: Json, n: nat): (items: seq<Json>)
    ensures |items| == n && forall k :: 0 <= k < n ==> items[k] == item
  {
    if n == 0 then [] else Repeat(item, n - 1) + [item]
  }

  function Fields(s: Schema, n: nat): Option<seq<Field>>
    requires n <= |s.properties|
    decreases s, n + 1
  {
    if n == 0 then Some([])
    else
      var p := s.properties[n - 1];
      match Fields(s, n - 1)
      case None => None
      case Some(fields) =>
        match Instance(p.schema, p.name)
        case None => None
        case Some(value) => Some(fields + [Field(p.name, value)])
  }

  // ----- validity -----

  predicate IsOf(v: Json, t: Type) {
    match t
    case ObjectType => v.Object?
    case ArrayType => v.Array?
    case NumberType => v.Number?
    case IntegerType => v.Number?
    case BooleanType => v.Bool?
    case NullType => v.Null?
    case StringType => v.Text?
    case UnknownType => false
  }

  predicate HasType(v: Json, types: Types) {
    match types
    case Any => true
    case One(t) => IsOf(v, t)
    case Many(ts) => exists k :: 0 <= k < |ts| && IsOf(v, ts[k])
  }

  function Find(fields: seq<Field>, n: nat, name: string): Option<Json>
    requires n <= |fields|
  {
    if n == 0 then None else if fields[n - 1].name == name then Some(fields[n - 1].value) else Find(fields, n - 1, name)
  }

  predicate Valid(v: Json, s: Schema)
    decreases s, 1
  {
    (s.values.Some? ==> v in s.values.value) && Fits(v, s)
  }

  /** Valid, `enum` aside. Properties say something about objects, items about arrays. */
  predicate Fits(v: Json, s: Schema)
    decreases s, 0
  {
    && HasType(v, s.types)
    && (v.Object? ==> (forall r :: r in s.required ==> Find(v.fields, |v.fields|, r).Some?)
                      && forall k :: 0 <= k < |s.properties| ==>
                           var found := Find(v.fields, |v.fields|, s.properties[k].name);
                           found.Some? ==> Valid(found.value, s.properties[k].schema))
    && (v.Array? ==> (s.minItems.Some? ==> |v.items| >= s.minItems.value)
                     && (s.items.Some? ==> forall k :: 0 <= k < |v.items| ==> Valid(v.items[k], s.items.value)))
  }

  /** The names of properties are the keys of a dictionary. */
  predicate Distinct(s: Schema)
    decreases s
  {
    && (forall i, j :: 0 <= i < j < |s.properties| ==> s.properties[i].name != s.properties[j].name)
    && (forall k :: 0 <= k < |s.properties| ==> Distinct(s.properties[k].schema))
    && (s.items.Some? ==> Distinct(s.items.value))
  }

  // ----- when the instance is valid -----

  predicate IsProperty(s: Schema, name: string) {
    exists k :: 0 <= k < |s.properties| && s.properties[k].name == name
  }

  /** What the schema must be for its instance to be valid: the first value of `enum` fits the rest; required
      names are properties; the first type, if any, is known (or gives a text that another one allows); and so for the schemas that are used below it. */
  predicate Usable(s: Schema)
    decreases s
  {
    if s.values.Some? then s.values.value != [] && Fits(s.values.value[0], s)
    else match Kind(s)
      case None => false
      case Some(One(ObjectType)) =>
        && (forall r :: r in s.required ==> IsProperty(s, r))
        && forall k :: 0 <= k < |s.properties| ==> Usable(s.properties[k].schema)
      case Some(One(ArrayType)) => ItemCount(s) == 0 || s.items == None || Usable(s.items.value)
      case Some(One(UnknownType)) => s.types.Many? && StringType in s.types.types
      case _ => true
  }

  lemma {:induction false} FieldsFind(s: Schema, n: nat, k: nat)
    requires n <= |s.properties| && Fields(s, n).Some? && Distinct(s) && k < |s.properties|
    ensures |Fields(s, n).value| == n
    ensures var found := Find(Fields(s, n).value, n, s.properties[k].name);
            if k < n then found.Some? && found == Instance(s.properties[k].schema, s.properties[k].name) else found == None
  {
    if n > 0 {
      FieldsFind(s, n - 1, k);
      FindPrefix(Fields(s, n - 1).value, Fields(s, n).value[n - 1], n - 1, s.properties[k].name);
    }
  }

  lemma {:induction false} FindPrefix(fields: seq<Field>, more: Field, n: nat, name: string)
    requires n <= |fields|
    ensures Find(fields + [more], n, name) == Find(fields, n, name)
  {
    if n > 0 {
      FindPrefix(fields, more, n - 1, name);
    }
  }

  lemma {:induction false} FieldsOnly(s: Schema, n: nat, name: string)
    requires n <= |s.properties| && Fields(s, n).Some?
    ensures |Fields(s, n).value| == n
    ensures Find(Fields(s, n).value, n, name).Some? <==> exists k :: 0 <= k < n && s.properties[k].name == name
  {
    if n > 0 {
      FieldsOnly(s, n - 1, name);
      FindPrefix(Fields(s, n - 1).value, Fields(s, n).value[n - 1], n - 1, name);
    }
  }

  lemma {:induction false} FieldsExist(s: Schema, n: nat)
    requires n <= |s.properties|
    ensures Fields(s, n).Some? <==> forall k :: 0 <= k < n ==> Instance(s.properties[k].schema, s.properties[k].name).Some?
  {
    if n > 0 {
      FieldsExist(s, n - 1);
    }
  }

  /** The instance exists and is valid exactly if the schema is usable. */
  lemma InstanceIsValid(s: Schema, name: string)
    requires Distinct(s)
    ensures (Instance(s, name).Some? && Valid(Instance(s, name).value, s)) <==> Usable(s)
    decreases s
  {
    if s.values.Some? {
    } else if Kind(s) == Some(One(ObjectType)) {
      ObjectIsValid(s, name);
    } else if Kind(s) == Some(One(ArrayType)) {
      ArrayIsValid(s, name);
    } else if Instance(s, name).Some? {
      ScalarIsValid(s, name);
    }
  }

  lemma ScalarIsValid(s: Schema, name: string)
    requires s.values == None && Kind(s).Some? && Kind(s) != Some(One(ObjectType)) && Kind(s) != Some(One(ArrayType))
    ensures Instance(s, name).Some? && (Valid(Instance(s, name).value, s) <==> Usable(s))
  {
    var v := Instance(s, name).value;
    assert !v.Object? && !v.Array?;
    if s.types.Many? {
      assert s.types.types[0] != UnknownType ==> IsOf(v, s.types.types[0]);
      assert v.Text? ==> forall t :: IsOf(v, t) <==> t == StringType;
    }
  }

  lemma ObjectIsValid(s: Schema, name: string)
    requires Distinct(s) && s.values == None && Kind(s) == Some(One(ObjectType))
    ensures (Instance(s, name).Some? && Valid(Instance(s, name).value, s)) <==> Usable(s)
    decreases s, 0
  {
    var n := |s.properties|;
    forall k | 0 <= k < n
      ensures (Instance(s.properties[k].schema, s.properties[k].name).Some?
               && Valid(Instance(s.properties[k].schema, s.properties[k].name).value, s.properties[k].schema))
           <==> Usable(s.properties[k].schema) {
      InstanceIsValid(s.properties[k].schema, s.properties[k].name);
    }
    FieldsExist(s, n);
    if Fields(s, n).Some? {
      var v := Object(Fields(s, n).value);
      forall k | 0 <= k < n ensures Find(v.fields, |v.fields|, s.properties[k].name)
                                 == Instance(s.properties[k].schema, s.properties[k].name) {
        FieldsFind(s, n, k);
      }
      forall r: string ensures Find(v.fields, |v.fields|, r).Some? <==> IsProperty(s, r) {
        FieldsOnly(s, n, r);
      }
      assert IsOf(v, ObjectType) && HasType(v, s.types);
    }
  }

  lemma ArrayIsValid(s: Schema, name: string)
    requires Distinct(s) && s.values == None && Kind(s) == Some(One(ArrayType))
    ensures (Instance(s, name).Some? && Valid(Instance(s, name).value, s)) <==> Usable(s)
    decreases s, 0
  {
    if s.items.Some? {
      InstanceIsValid(s.items.value, name);
    }
    if Instance(s, name).Some? {
      var v := Instance(s, name).value;
      assert IsOf(v, ArrayType) && HasType(v, s.types);
      if ItemCount(s) > 0 && s.items.Some? {
        assert v.items[0] == Instance(s.items.value, name).value;
      }
    }
  }
}
