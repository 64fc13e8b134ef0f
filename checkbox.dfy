/** PDCheckbox: a check box of an interactive form, over its field
    dictionary. The field's appearance dictionary AP holds, under N, one
    appearance per state; the state that is not Off is the box's on value,
    and AS names the state shown. */
module Checkbox {
  import opened Wrappers
  import opened CosDictionary

  /** The objects a field dictionary holds, as far as the check box looks at
      them: names, dictionaries (a stream is a dictionary too), the null
      object, and anything else. */
  datatype CosValue = CName(name: string) | CDict(dict: Dict<CosValue>) | CNull | COther

  /** What the Java code throws: a failed cast, or a call on null. */
  datatype Fault = ClassCast | NullPointer

  const Off := "Off"

  /** getDictionaryObject: the entry under `key`, where an entry holding the
      null object reads as no entry at all. */
  function Lookup(d: Dict<CosValue>, key: string): (r: Option<CosValue>)
    ensures r.None? <==> d.Get(key).None? || d.Get(key) == Some(CNull)
    ensures r.Some? ==> r == d.Get(key) && r.value != CNull
  {
    match d.Get(key)
    case Some(CNull) => None
    case other => other
  }

  // ---------------------------------------------------------------- the on value

  /** The last key of `keys` that is not Off, or none. */
  function LastNonOff(keys: seq<string>): Option<string>
  {
    if keys == [] then None
    else if keys[|keys| - 1] != Off then Some(keys[|keys| - 1])
    else LastNonOff(keys[..|keys| - 1])
  }

  /** The loop over keySet() that keeps the last key that is not Off. */
  method LastNonOffKey(keys: seq<string>) returns (r: Option<string>)
    ensures r == LastNonOff(keys)
  {
    r := None;
    var i := 0;
    while i < |keys|
      invariant 0 <= i <= |keys|
      invariant r == LastNonOff(keys[..i])
    {
      assert keys[..i + 1][..i] == keys[..i];
      if keys[i] != Off {
        r := Some(keys[i]);
      }
      i := i + 1;
    }
    assert keys[..i] == keys;
  }

  /** There is no key the loop keeps exactly when every key is Off. */
  lemma {:induction false} LastNonOffNone(keys: seq<string>)
    ensures LastNonOff(keys).None? <==> forall i :: 0 <= i < |keys| ==> keys[i] == Off
    decreases |keys|
  {
    if keys != [] && keys[|keys| - 1] == Off {
      var init := keys[..|keys| - 1];
      LastNonOffNone(init);
      if LastNonOff(init).None? {
        forall i | 0 <= i < |keys|
          ensures keys[i] == Off
        {
          if i < |init| {
            assert init[i] == keys[i];
          }
        }
      } else {
        var i :| 0 <= i < |init| && init[i] != Off;
        assert keys[i] != Off;
      }
    }
  }

  /** The key the loop keeps is not Off and sits at an index i after which
      every key is Off: it is the last key that is not Off. */
  lemma {:induction false} LastNonOffIsLast(keys: seq<string>) returns (i: nat)
    requires LastNonOff(keys).Some?
    ensures i < |keys| && keys[i] == LastNonOff(keys).value && keys[i] != Off
    ensures forall j :: i < j < |keys| ==> keys[j] == Off
    decreases |keys|
  {
    if keys[|keys| - 1] != Off {
      i := |keys| - 1;
    } else {
      var init := keys[..|keys| - 1];
      i := LastNonOffIsLast(init);
      assert keys[i] == init[i];
      forall j | i < j < |keys|
        ensures keys[j] == Off
      {
        if j < |init| {
          assert init[j] == keys[j];
        }
      }
    }
  }

  /** Which names the N entry of an appearance dictionary offers: the keys
      of N when N is a dictionary, none otherwise. */
  function OnValueOfAppearance(ap: Dict<CosValue>): Option<string>
  {
    match Lookup(ap, "N")
    case Some(CDict(n)) => LastNonOff(n.keys)
    case _ => None
  }

  /** The on value the constructor picks: from AP/N when the field has an
      appearance dictionary, from V otherwise. Both entries are cast, and a
      cast of the wrong kind of object fails. */
  function InitialValue(field: Dict<CosValue>): (r: Result<Option<string>, Fault>)
    ensures r.Err? ==> r.error == ClassCast
  {
    match Lookup(field, "AP")
    case Some(CDict(ap)) => Ok(OnValueOfAppearance(ap))
    case Some(_) => Err(ClassCast)
    case None =>
      match Lookup(field, "V")
      case None => Ok(None)
      case Some(CName(v)) => Ok(Some(v))
      case Some(_) => Err(ClassCast)
  }

  /** getOnValue: as the constructor, but a field without AP is a call on null. */
  function OnValue(field: Dict<CosValue>): (r: Result<Option<string>, Fault>)
  {
    match Lookup(field, "AP")
    case Some(CDict(ap)) => Ok(OnValueOfAppearance(ap))
    case Some(_) => Err(ClassCast)
    case None => Err(NullPointer)
  }

  /** The on value is the last key of AP/N that is not Off, and never Off;
      getOnValue and the constructor agree on a field with an appearance
      dictionary; without one getOnValue fails where the constructor reads V. */
  lemma OnValueFromAppearance(field: Dict<CosValue>)
    ensures Lookup(field, "AP").Some? && Lookup(field, "AP").value.CDict? ==>
              var ap := Lookup(field, "AP").value.dict;
              && OnValue(field) == InitialValue(field)
              && (Lookup(ap, "N").Some? && Lookup(ap, "N").value.CDict? ==>
                    OnValue(field) == Ok(LastNonOff(Lookup(ap, "N").value.dict.keys)))
              && (!(Lookup(ap, "N").Some? && Lookup(ap, "N").value.CDict?) ==> OnValue(field) == Ok(None))
    ensures OnValue(field).Ok? && OnValue(field).value.Some? ==> OnValue(field).value.value != Off
    ensures Lookup(field, "AP").None? ==> OnValue(field) == Err(NullPointer)
    ensures Lookup(field, "AP").None? && Lookup(field, "V").Some? && Lookup(field, "V").value.CName? ==>
              InitialValue(field) == Ok(Some(Lookup(field, "V").value.name))
  {
    match Lookup(field, "AP") {
      case Some(CDict(ap)) =>
        match Lookup(ap, "N") {
          case Some(CDict(n)) =>
            if LastNonOff(n.keys).Some? {
              var i := LastNonOffIsLast(n.keys);
            }
          case _ =>
        }
      case _ =>
    }
  }

  /** An AP or V entry holding the null object is read as no entry: the on
      value is the one of the field without that entry. */
  lemma NullEntryIsAbsent(field: Dict<CosValue>, key: string)
    requires key == "AP" || key == "V"
    requires field.Get(key) == Some(CNull)
    ensures InitialValue(field) == InitialValue(field.RemoveItem(key))
    ensures OnValue(field) == OnValue(field.RemoveItem(key))
  {
    assert Lookup(field, key) == Lookup(field.RemoveItem(key), key);
  }

  // ---------------------------------------------------------------- state changes

  /** setName: a null name removes the entry. */
  function SetName(d: Dict<CosValue>, key: string, name: Option<string>): (r: Dict<CosValue>)
    ensures r.Get(key) == (if name.Some? then Some(CName(name.value)) else None)
    ensures forall k :: k != key ==> r.Get(k) == d.Get(k)
    ensures d.Valid() ==> r.Valid()
  {
    match name
    case None => d.RemoveItem(key)
    case Some(n) => d.SetItem(key, CName(n))
  }

  /** The field after setValue: V holds the new value, and AS shows it, or
      Off when there is none. Nothing else changes. */
  function ValueSet(d: Dict<CosValue>, newValue: Option<string>): (r: Dict<CosValue>)
    ensures r.Get("V") == (if newValue.Some? then Some(CName(newValue.value)) else None)
    ensures r.Get("AS") == Some(CName(if newValue.Some? then newValue.value else Off))
    ensures forall k :: k != "V" && k != "AS" ==> r.Get(k) == d.Get(k)
    ensures d.Valid() ==> r.Valid()
  {
    var withV := SetName(d, "V", newValue);
    if newValue.None? then withV.SetItem("AS", CName(Off)) else SetName(withV, "AS", newValue)
  }

  /** The field after check: AS shows the on value, or is gone when there is none. */
  function Checked(d: Dict<CosValue>, onValue: Option<string>): (r: Dict<CosValue>)
    ensures r.Get("AS") == (if onValue.Some? then Some(CName(onValue.value)) else None)
    ensures forall k :: k != "AS" ==> r.Get(k) == d.Get(k)
    ensures d.Valid() ==> r.Valid()
  {
    SetName(d, "AS", onValue)
  }

  /** The field after unCheck: AS shows Off. */
  function Unchecked(d: Dict<CosValue>): (r: Dict<CosValue>)
    ensures r.Get("AS") == Some(CName(Off))
    ensures forall k :: k != "AS" ==> r.Get(k) == d.Get(k)
    ensures d.Valid() ==> r.Valid()
  {
    d.SetItem("AS", CName(Off))
  }

  /** Checking and then unchecking is unchecking alone, and unchecking and
      then checking is checking alone: the later call decides AS, and no
      other entry changes. */
  lemma CheckThenUncheck(d: Dict<CosValue>, onValue: Option<string>)
    ensures Unchecked(Checked(d, onValue)).Get("AS") == Some(CName(Off))
    ensures forall k :: Unchecked(Checked(d, onValue)).Get(k) == Unchecked(d).Get(k)
    ensures forall k :: Checked(Unchecked(d), onValue).Get(k) == Checked(d, onValue).Get(k)
  {
  }

  /** setValue(null) leaves the box as unCheck does, apart from V, which it removes. */
  lemma ClearedValueUnchecks(d: Dict<CosValue>)
    ensures ValueSet(d, None).Get("AS") == Unchecked(d).Get("AS")
    ensures ValueSet(d, None).Get("V") == None
    ensures forall k :: k != "V" ==> ValueSet(d, None).Get(k) == Unchecked(d).Get(k)
  {
  }

  class PdCheckbox {
    /** The field dictionary, shared in the Java code with the PDField. */
    var field: Dict<CosValue>
    /** The on value found by the constructor. */
    var value: Option<string>

    constructor Of(f: Dict<CosValue>, onValue: Option<string>)
      ensures field == f && value == onValue
    {
      field := f;
      value := onValue;
    }

    /** setValue: writes V and AS. The on value is not touched. */
    method SetValue(newValue: Option<string>)
      modifies this
      ensures field == ValueSet(old(field), newValue) && value == old(value)
    {
      field := SetName(field, "V", newValue);
      if newValue == None {
        field := field.SetItem("AS", CName(Off));
      } else {
        field := SetName(field, "AS", newValue);
      }
    }

    /** getOnValue, with its loop over the keys of AP/N. */
    method GetOnValue() returns (r: Result<Option<string>, Fault>)
      ensures r == OnValue(field)
    {
      var ap := Lookup(field, "AP");
      if ap.None? {
        return Err(NullPointer);
      }
      if !ap.value.CDict? {
        return Err(ClassCast);
      }
      var n := Lookup(ap.value.dict, "N");
      var retval := None;
      if n.Some? && n.value.CDict? {
        retval := LastNonOffKey(n.value.dict.keys);
      }
      r := Ok(retval);
    }

    /** check: AS shows the on value. */
    method Check()
      modifies this
      ensures field == Checked(old(field), value) && value == old(value)
    {
      field := SetName(field, "AS", value);
    }

    /** unCheck: AS shows Off. */
    method UnCheck()
      modifies this
      ensures field == Unchecked(old(field)) && value == old(value)
    {
      field := field.SetItem("AS", CName(Off));
    }
  }

  /** The constructor: picks the on value with the loop over the keys of
      AP/N, or reads V when there is no AP; a failed cast is thrown. */
  method Open(field: Dict<CosValue>) returns (r: Result<PdCheckbox, Fault>)
    ensures InitialValue(field).Err? <==> r.Err?
    ensures r.Err? ==> r.error == InitialValue(field).error
    ensures r.Ok? ==> fresh(r.value) && r.value.field == field && r.value.value == InitialValue(field).value
  {
    var value: Option<string> := None;
    var ap := Lookup(field, "AP");
    if ap.Some? {
      if !ap.value.CDict? {
        return Err(ClassCast);
      }
      var n := Lookup(ap.value.dict, "N");
      if n.Some? && n.value.CDict? {
        value := LastNonOffKey(n.value.dict.keys);
      }
    } else {
      var v := Lookup(field, "V");
      if v.Some? {
        if !v.value.CName? {
          return Err(ClassCast);
        }
        value := Some(v.value.name);
      }
    }
    var box := new PdCheckbox.Of(field, value);
    r := Ok(box);
  }
}
