/**
  The predicated-field property drawer: a field is drawn enabled or disabled
  depending on the value of a named sibling property.
 */
module PredicatedField {
  import opened Strings

  /**
    The sibling property as the drawer reads it: its serialized type name and the
    value accessors the drawer consults. Which accessor is meaningful depends on
    `typeName`. A float value is modelled as a mathematical real.
   */
  datatype SerializedProperty = SerializedProperty(
    typeName: string,
    intValue: int,
    boolValue: bool,
    floatValue: real,
    enumValueIndex: int,
    objectReferenceIsNull: bool)

  /** The attribute's three parameters. */
  datatype PredicatedFieldAttribute = PredicatedFieldAttribute(propertyName: string, inverted: bool, disableIfValueIs: int)

  /** The attribute as declared with only a property name: not inverted, disabled at 0. */
  function WithDefaults(propertyName: string): (a: PredicatedFieldAttribute)
    ensures a.propertyName == propertyName && !a.inverted && a.disableIfValueIs == 0
  {
    PredicatedFieldAttribute(propertyName, false, 0)
  }

  /** The property types the drawer knows how to read; any other type is reported as not implemented. */
  predicate IsSupportedType(typeName: string)
  {
    typeName == "int" || typeName == "bool" || typeName == "float" || typeName == "Enum" || StartsWith(typeName, "PPtr")
  }

  /**
    The documented meaning of `disableIfValueIs`: the sibling "has this value".
    A bool has it when it equals `disableIfValueIs != 0`; an object reference,
    whose value cannot be compared with an integer, has it when it is null.
   */
  predicate AtDisableValue(attr: PredicatedFieldAttribute, prop: SerializedProperty)
    requires IsSupportedType(prop.typeName)
  {
    match prop.typeName
    case "int" => prop.intValue == attr.disableIfValueIs
    case "bool" => prop.boolValue == (attr.disableIfValueIs != 0)
    case "float" => prop.floatValue == attr.disableIfValueIs as real
    case "Enum" => prop.enumValueIndex == attr.disableIfValueIs
    case _ => prop.objectReferenceIsNull
  }

  /**
    Whether the field is drawn enabled. For a supported type the field is enabled
    exactly when the sibling is not at its disabling value, the other way round
    when inverted; an unsupported type always leaves the field enabled.
   */
  function GUIEnabled(attr: PredicatedFieldAttribute, prop: SerializedProperty): (r: bool)
    ensures !IsSupportedType(prop.typeName) ==> r
    ensures IsSupportedType(prop.typeName) ==> (r <==> AtDisableValue(attr, prop) == attr.inverted)
  {
    var t := prop.typeName;
    if t == "int" then
      var result := prop.intValue != attr.disableIfValueIs;
      if attr.inverted then !result else result
    else if t == "bool" then
      var result := prop.boolValue != (attr.disableIfValueIs != 0);
      if attr.inverted then !result else result
    else if t == "float" then
      var result := prop.floatValue != attr.disableIfValueIs as real;
      if attr.inverted then !result else result
    else if t == "Enum" then
      var result := prop.enumValueIndex != attr.disableIfValueIs;
      if attr.inverted then !result else result
    else if StartsWith(t, "PPtr") then
      var result := !prop.objectReferenceIsNull;
      if attr.inverted then !result else result
    else
      true
  }

  /**
    One drawer pass: the GUI-enabled state after `OnGUI`. `siblings` maps the
    property names the serialized object can find to their properties; when the
    named sibling is not found the incoming state is left unchanged.
   */
  function OnGUI(attr: PredicatedFieldAttribute, siblings: map<string, SerializedProperty>, guiEnabled: bool): (enabled: bool)
    ensures attr.propertyName !in siblings ==> enabled == guiEnabled
    ensures attr.propertyName in siblings ==> enabled == GUIEnabled(attr, siblings[attr.propertyName])
  {
    if attr.propertyName in siblings then GUIEnabled(attr, siblings[attr.propertyName]) else guiEnabled
  }

  // ---------------------------------------------------------------------------
  // Properties

  /** Flipping `inverted` negates the outcome for every supported type and changes nothing otherwise. */
  lemma InvertedNegates(attr: PredicatedFieldAttribute, prop: SerializedProperty)
    ensures IsSupportedType(prop.typeName) ==>
              GUIEnabled(attr.(inverted := !attr.inverted), prop) == !GUIEnabled(attr, prop)
    ensures !IsSupportedType(prop.typeName) ==>
              GUIEnabled(attr.(inverted := !attr.inverted), prop) && GUIEnabled(attr, prop)
  {
  }

  /** With default arguments a bool toggle enables the field exactly when it is on. */
  lemma DefaultBoolFollowsToggle(name: string, prop: SerializedProperty)
    requires prop.typeName == "bool"
    ensures GUIEnabled(WithDefaults(name), prop) == prop.boolValue
  {
  }

  /** An object-reference sibling ignores `disableIfValueIs`: only null-ness matters. */
  lemma PointerIgnoresDisableValue(attr: PredicatedFieldAttribute, prop: SerializedProperty, d: int)
    requires StartsWith(prop.typeName, "PPtr")
    ensures GUIEnabled(attr.(disableIfValueIs := d), prop) == GUIEnabled(attr, prop)
    ensures GUIEnabled(attr, prop) == (prop.objectReferenceIsNull == attr.inverted)
  {
    assert prop.typeName[0] == 'P';
  }

  /**
    Once the sibling is found, the incoming GUI state is irrelevant; when it is not,
    the pass is the identity on that state.
   */
  lemma OnGUIFoundIgnoresIncomingState(attr: PredicatedFieldAttribute, siblings: map<string, SerializedProperty>, before: bool, before': bool)
    ensures attr.propertyName in siblings ==> OnGUI(attr, siblings, before) == OnGUI(attr, siblings, before')
    ensures attr.propertyName !in siblings ==> OnGUI(attr, siblings, before) == before
  {
  }
}
