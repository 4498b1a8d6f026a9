/** Which parameters a SEQUENCE gives each of its fields: lib/aper resolves an open type's reference in the same way
    on both sides. */
module References {
  import opened Common
  import opened Encoding

  /** The search for the field an open type refers to, which the encoder and the decoder both carry out. */
  method FieldParameters(fields: seq<Field>, before: seq<Option<Value>>) returns (r: Result<Params>)
    requires |before| < |fields|
    ensures r == FieldParams(fields, before)
  {
    hide ReferenceValue;
    var i := |before|;
    var p := fields[i].params;
    if p.openType {
      var index := 0;
      while index < i && fields[index].name != p.referenceFieldName
        invariant 0 <= index <= i
        invariant FieldIndex(fields, p.referenceFieldName, 0, i) == FieldIndex(fields, p.referenceFieldName, index, i)
      {
        index := index + 1;
      }
      if index == i {
        return Err(ReferenceUnresolved);
      } else if fields[index].pointer || before[index].None? {
        return Err(ReferenceNotInteger);
      }
      var x := ReferenceValue(fields[index].ty, before[index].value);
      if x.Err? {
        return Err(x.error);
      }
      p := p.(referenceFieldValue := Some(x.value));
    }
    return Ok(p);
  }

  /** A field that is no open type is given the tag it has. */
  lemma OwnTag(fields: seq<Field>, before: seq<Option<Value>>)
    requires |before| < |fields| && !fields[|before|].params.openType
    ensures FieldParams(fields, before) == Ok(fields[|before|].params)
  {}

  /** An open type that names none of the fields before it. */
  lemma Unnamed(fields: seq<Field>, before: seq<Option<Value>>)
    requires |before| < |fields| && fields[|before|].params.openType
    ensures FieldParams(fields, before) == Err(ReferenceUnresolved)
       <==> forall j | 0 <= j < |before| :: fields[j].name != fields[|before|].params.referenceFieldName
  {
    hide ReferenceValue;
    var name := fields[|before|].params.referenceFieldName;
    if exists j | 0 <= j < |before| :: fields[j].name == name {
      var j :| 0 <= j < |before| && fields[j].name == name;
      FirstNamed(fields, name, 0, |before|, j);
      var k := FieldIndex(fields, name, 0, |before|);
      if !fields[k].pointer && before[k].Some? {
        NeverUnresolved(fields[k].ty, before[k].value);
      }
    } else {
      NoneNamed(fields, name, 0, |before|);
    }
  }

  lemma {:induction false} NeverUnresolved(t: Type, v: Value)
    ensures ReferenceValue(t, v) != Err(ReferenceUnresolved)
    decreases v
  {
    match (t, v) {
      case (ChoiceType(alts), ChoiceValue(present, alt)) =>
        if 0 < present <= |alts| {
          NeverUnresolved(alts[present - 1].ty, alt);
        }
      case (SequenceType(fields), SequenceValue(vs)) =>
        if fields != [] && vs != [] && vs[0].Some? {
          NeverUnresolved(fields[0].ty, vs[0].value);
        }
      case _ =>
    }
  }

  lemma {:induction false} NoneNamed(fields: seq<Field>, name: string, from: nat, i: nat)
    requires from <= i <= |fields| && forall j | from <= j < i :: fields[j].name != name
    ensures FieldIndex(fields, name, from, i) == i
    decreases i - from
  {
    if from < i { NoneNamed(fields, name, from + 1, i); }
  }

  /** The first field of a name is found, whichever fields of that name come after it. */
  lemma {:induction false} FirstNamed(fields: seq<Field>, name: string, from: nat, i: nat, j: nat)
    requires from <= j < i <= |fields| && fields[j].name == name
    ensures
      var k := FieldIndex(fields, name, from, i);
      from <= k <= j && fields[k].name == name && forall h | from <= h < k :: fields[h].name != name
    decreases i - from
  {
    if fields[from].name != name { FirstNamed(fields, name, from + 1, i, j); }
  }

  /** An open type is given the integer in the first field of the name it refers to, and otherwise the tag it has. */
  lemma Resolved(fields: seq<Field>, before: seq<Option<Value>>, k: nat)
    requires k < |before| < |fields|
    requires fields[|before|].params.openType && fields[k].name == fields[|before|].params.referenceFieldName
    requires forall j | 0 <= j < k :: fields[j].name != fields[k].name
    ensures fields[k].pointer || before[k].None? ==> FieldParams(fields, before) == Err(ReferenceNotInteger)
    ensures !fields[k].pointer && before[k].Some? ==>
              FieldParams(fields, before)
              == var p, x := fields[|before|].params, ReferenceValue(fields[k].ty, before[k].value);
                 if x.Err? then Err(x.error)
                 else Ok(Params(p.optional, p.sizeExtensible, p.valueExtensible, p.sizeLowerBound, p.sizeUpperBound,
                                p.valueLowerBound, p.valueUpperBound, true, p.referenceFieldName, Some(x.value)))
  {
    hide ReferenceValue;
    FirstNamed(fields, fields[k].name, 0, |before|, k);
  }

  /** The integer in a field: its own, that of the first field of a SEQUENCE, that of the alternative of a CHOICE. */
  lemma ReferredTo(x: Int64, v: Value, first: Field, more: seq<Field>, others: seq<Option<Value>>, alts: seq<Field>, present: Int64)
    requires !first.pointer && 1 <= present <= |alts| && !alts[present - 1].pointer
    ensures ReferenceValue(IntType, IntValue(x)) == Ok(x)
    ensures ReferenceValue(SequenceType([first] + more), SequenceValue([Some(v)] + others)) == ReferenceValue(first.ty, v)
    ensures ReferenceValue(ChoiceType(alts), ChoiceValue(present, v)) == ReferenceValue(alts[present - 1].ty, v)
  {
    assert ([first] + more)[0] == first && ([Some(v)] + others)[0] == Some(v);
  }
}
