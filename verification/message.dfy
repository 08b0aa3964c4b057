/**
 * The base class of the message records (messages/Message.py): construction
 * from positional or keyword arguments, checked against the record's declared
 * attribute list, and the textual rendering `name:value` per attribute.
 *
 * A Python value is modelled by a type parameter V and its `str` by an arrow
 * `show`; an attribute left unset by keywords holds None, rendered "None".
 * Keyword arguments are a sequence of (name, value) pairs in call order, which
 * is the iteration order of the keyword dictionary.
 */
module Messages {
  import opened Wrappers

  /** Why the constructor refuses its arguments. */
  datatype InitError =
    | MixedArguments                                        // TypeError: both positional and keyword arguments
    | WrongArity(expected: seq<string>)                     // TypeError: positional count differs from the attributes
    | UnknownAttribute(name: string, messageClass: string)  // AttributeError: a keyword that is no attribute

  /** The value given for keyword `name`, if any. */
  function Lookup<V>(kwds: seq<(string, V)>, name: string): (value: Option<V>)
    ensures value.None? <==> forall j :: 0 <= j < |kwds| ==> kwds[j].0 != name
    ensures value.Some? ==>
      exists j :: 0 <= j < |kwds| && kwds[j] == (name, value.value) && forall l :: 0 <= l < j ==> kwds[l].0 != name
  {
    if kwds == [] then None
    else if kwds[0].0 == name then Some(kwds[0].1)
    else
      var rest := Lookup(kwds[1..], name);
      assert forall j :: 1 <= j < |kwds| ==> kwds[j] == kwds[1..][j - 1];
      rest
  }

  /** The name of the first keyword, in call order, that is not an attribute. */
  function FirstUnknown<V>(attributes: seq<string>, kwds: seq<(string, V)>): (unknown: Option<string>)
    ensures unknown.None? <==> forall j :: 0 <= j < |kwds| ==> kwds[j].0 in attributes
    ensures unknown.Some? ==>
      exists j :: 0 <= j < |kwds| && kwds[j].0 == unknown.value && unknown.value !in attributes &&
        forall l :: 0 <= l < j ==> kwds[l].0 in attributes
  {
    if kwds == [] then None
    else if kwds[0].0 !in attributes then Some(kwds[0].0)
    else
      var rest := FirstUnknown(attributes, kwds[1..]);
      assert forall j :: 1 <= j < |kwds| ==> kwds[j] == kwds[1..][j - 1];
      rest
  }

  /** The attribute map after assigning values[i] to names[i] in turn, from an object with none. */
  function Assigned<V>(names: seq<string>, values: seq<Option<V>>): (fields: map<string, Option<V>>)
    requires |names| == |values|
    ensures forall n :: n in fields <==> n in names
  {
    if names == [] then map[]
    else Assigned(names[..|names| - 1], values[..|values| - 1])[names[|names| - 1] := values[|values| - 1]]
  }

  /** Each name receives the value assigned to it last. */
  lemma {:induction false} AssignedLast<V>(names: seq<string>, values: seq<Option<V>>, i: nat)
    requires |names| == |values| && i < |names|
    requires forall j :: i < j < |names| ==> names[j] != names[i]
    ensures Assigned(names, values)[names[i]] == values[i]
  {
    var k := |names| - 1;
    if i < k {
      AssignedLast(names[..k], values[..k], i);
    }
  }

  /** Assigning every name a value that depends on the name alone gives each name that value. */
  lemma AssignedByName<V>(names: seq<string>, values: seq<Option<V>>, f: string -> Option<V>)
    requires |names| == |values|
    requires forall i :: 0 <= i < |names| ==> values[i] == f(names[i])
    ensures forall n :: n in Assigned(names, values) ==> Assigned(names, values)[n] == f(n)
  {
    forall n | n in Assigned(names, values) ensures Assigned(names, values)[n] == f(n) {
      var i :| 0 <= i < |names| && names[i] == n && forall j :: i < j < |names| ==> names[j] != n by {
        LastOccurrence(names, n);
      }
      AssignedLast(names, values, i);
    }
  }

  /** A name that occurs in a sequence has a last occurrence. */
  lemma {:induction false} LastOccurrence(names: seq<string>, n: string)
    requires n in names
    ensures exists i :: 0 <= i < |names| && names[i] == n && forall j :: i < j < |names| ==> names[j] != n
  {
    var k := |names| - 1;
    if names[k] != n {
      assert n in names[..k] by {
        var i :| 0 <= i < |names| && names[i] == n;
        assert names[..k][i] == n;
      }
      LastOccurrence(names[..k], n);
      var i :| 0 <= i < k && names[..k][i] == n && forall j :: i < j < k ==> names[..k][j] != n;
      assert names[i] == n && forall j :: i < j < |names| ==> names[j] != n;
    }
  }

  /** The positional arguments as attribute values. */
  function Present<V>(args: seq<V>): (values: seq<Option<V>>)
    ensures |values| == |args| && forall i :: 0 <= i < |args| ==> values[i] == Some(args[i])
  {
    seq(|args|, i requires 0 <= i < |args| => Some(args[i]))
  }

  /** In keyword mode each attribute receives its keyword's value, or None when no keyword names it. */
  function KeywordValues<V>(attributes: seq<string>, kwds: seq<(string, V)>): (values: seq<Option<V>>)
    ensures |values| == |attributes| && forall i :: 0 <= i < |attributes| ==> values[i] == Lookup(kwds, attributes[i])
  {
    seq(|attributes|, i requires 0 <= i < |attributes| => Lookup(kwds, attributes[i]))
  }

  /**
   * The outcome of the Message constructor for a record with the given
   * attribute list: the attribute map it builds, or the error it raises.
   */
  function InitFields<V>(attributes: seq<string>, messageClass: string, args: seq<V>, kwds: seq<(string, V)>)
    : Result<map<string, Option<V>>, InitError>
  {
    if args != [] && kwds != [] then Failure(MixedArguments)
    else if args != [] then
      if |args| != |attributes| then Failure(WrongArity(attributes))
      else Success(Assigned(attributes, Present(args)))
    else
      match FirstUnknown(attributes, kwds)
      case Some(name) => Failure(UnknownAttribute(name, messageClass))
      case None => Success(Assigned(attributes, KeywordValues(attributes, kwds)))
  }

  /**
   * The constructor succeeds exactly when the arguments are not mixed, a
   * positional call gives one argument per attribute and a keyword call names
   * only attributes; each refusal carries its own reason.
   */
  lemma InitSucceedsIff<V>(attributes: seq<string>, messageClass: string, args: seq<V>, kwds: seq<(string, V)>)
    ensures InitFields(attributes, messageClass, args, kwds).Success? <==>
      && (args == [] || kwds == [])
      && (args != [] ==> |args| == |attributes|)
      && (args == [] ==> forall j :: 0 <= j < |kwds| ==> kwds[j].0 in attributes)
    ensures InitFields(attributes, messageClass, args, kwds) == Failure(MixedArguments) <==> args != [] && kwds != []
    ensures InitFields(attributes, messageClass, args, kwds) == Failure(WrongArity(attributes)) <==>
      args != [] && kwds == [] && |args| != |attributes|
    ensures forall name :: InitFields(attributes, messageClass, args, kwds) == Failure(UnknownAttribute(name, messageClass)) ==>
      args == [] && name !in attributes &&
      exists j :: 0 <= j < |kwds| && kwds[j].0 == name && forall l :: 0 <= l < j ==> kwds[l].0 in attributes
  {
  }

  /** A positional call over distinct attributes gives attribute i the value args[i], and sets no other attribute. */
  lemma PositionalFields<V>(attributes: seq<string>, messageClass: string, args: seq<V>)
    requires args != [] && |args| == |attributes|
    requires forall i, j :: 0 <= i < j < |attributes| ==> attributes[i] != attributes[j]
    ensures InitFields(attributes, messageClass, args, []).Success?
    ensures var fields := InitFields(attributes, messageClass, args, []).value;
      && (forall n :: n in fields <==> n in attributes)
      && (forall i :: 0 <= i < |attributes| ==> fields[attributes[i]] == Some(args[i]))
  {
    forall i | 0 <= i < |attributes| ensures Assigned(attributes, Present(args))[attributes[i]] == Some(args[i]) {
      AssignedLast(attributes, Present(args), i);
    }
  }

  /**
   * A keyword call, including one with no arguments at all, that names only
   * attributes sets every attribute: to its keyword's value, or to None.
   */
  lemma KeywordFields<V>(attributes: seq<string>, messageClass: string, kwds: seq<(string, V)>)
    requires forall j :: 0 <= j < |kwds| ==> kwds[j].0 in attributes
    ensures InitFields(attributes, messageClass, [], kwds).Success?
    ensures var fields := InitFields(attributes, messageClass, [], kwds).value;
      && (forall n :: n in fields <==> n in attributes)
      && (forall n :: n in fields ==> fields[n] == Lookup(kwds, n))
  {
    AssignedByName(attributes, KeywordValues(attributes, kwds), n => Lookup(kwds, n));
  }

  /** The text of an attribute value: `show` for a value, "None" for an unset one. */
  function Text<V>(value: Option<V>, show: V -> string): string {
    match value
    case None => "None"
    case Some(v) => show(v)
  }

  /**
   * The rendering of one attribute: `name:`, a newline when the text itself
   * holds a ':', the text, and a closing newline unless that already ends it.
   */
  function Section(name: string, text: string): (section: string)
    ensures |section| > |name| && section[|section| - 1] == '\n'
  {
    var head := if ':' in text then name + ":" + "\n" + text else name + ":" + text;
    if head[|head| - 1] != '\n' then head + "\n" else head
  }

  /**
   * A section starts with `name:`, then a newline exactly when the text holds a
   * ':', then the text; it ends in a newline, which is added only when the
   * text does not already end in one.
   */
  lemma SectionLayout(name: string, text: string)
    ensures var section, sep := Section(name, text), if ':' in text then 1 else 0;
      && |name| + 1 + sep + |text| <= |section|
      && section[..|name| + 1] == name + ":"
      && (sep == 1 ==> section[|name| + 1] == '\n')
      && section[|name| + 1 + sep..|name| + 1 + sep + |text|] == text
      && |section| == |name| + 1 + sep + |text| + (if text != [] && text[|text| - 1] == '\n' then 0 else 1)
  {
    var head := if ':' in text then name + ":" + "\n" + text else name + ":" + text;
    assert head[..|name| + 1] == name + ":";
  }

  /** The rendering of a message: the sections of `names` in order, each with the text of its value. */
  function Render<V>(names: seq<string>, fields: map<string, Option<V>>, show: V -> string): (s: string)
    requires forall i :: 0 <= i < |names| ==> names[i] in fields
    ensures names != [] ==> |s| > 0 && s[|s| - 1] == '\n'
    ensures names == [] ==> s == ""
  {
    if names == [] then ""
    else
      var last := names[|names| - 1];
      Render(names[..|names| - 1], fields, show) + Section(last, Text(fields[last], show))
  }

  /** The rendering of a prefix of the attributes is a prefix of the rendering. */
  lemma {:induction false} RenderPrefix<V>(names: seq<string>, k: nat, fields: map<string, Option<V>>, show: V -> string)
    requires k <= |names|
    requires forall i :: 0 <= i < |names| ==> names[i] in fields
    ensures Render(names[..k], fields, show) <= Render(names, fields, show)
    decreases |names|
  {
    if k < |names| {
      var init := names[..|names| - 1];
      assert init[..k] == names[..k];
      RenderPrefix(init, k, fields, show);
    } else {
      assert names[..k] == names;
    }
  }

  lemma AppendAssoc(a: string, b: string, c: string)
    ensures (a + b) + c == a + (b + c)
  {
  }

  /**
   * One turn of the loop of __str__: appends `name:`, a newline when the text
   * holds a ':', the text, and a newline unless the string now ends in one.
   */
  method AppendSection(s: string, name: string, text: string) returns (r: string)
    ensures r == s + Section(name, text)
  {
    r := s;
    // `piece` is what this attribute has added to r so far
    ghost var piece := name + ":";
    AppendAssoc(s, name, ":");
    r := r + name + ":";
    if ':' in text {
      AppendAssoc(s, piece, "\n");
      r := r + "\n";
      piece := piece + "\n";
    }
    AppendAssoc(s, piece, text);
    r := r + text;
    piece := piece + text;
    assert r[|r| - 1] == piece[|piece| - 1];
    if r[|r| - 1] != '\n' {
      AppendAssoc(s, piece, "\n");
      r := r + "\n";
      piece := piece + "\n";
    }
  }

  /** A message record: its declared attribute list, its class name and its attribute values. */
  class Message<V> {
    const attributes: seq<string>
    const messageClass: string
    var fields: map<string, Option<V>>

    /** An object of the record class before its constructor body runs: no attribute set. */
    constructor (attributes: seq<string>, messageClass: string)
      ensures this.attributes == attributes && this.messageClass == messageClass && fields == map[]
    {
      this.attributes := attributes;
      this.messageClass := messageClass;
      fields := map[];
    }

    /** The positional branch of the constructor: attribute i is set to args[i], in declared order. */
    method SetPositional(args: seq<V>)
      requires |args| == |attributes| && fields == map[]
      modifies this
      ensures fields == Assigned(attributes, Present(args))
    {
      for i := 0 to |attributes|
        invariant fields == Assigned(attributes[..i], Present(args)[..i])
      {
        fields := fields[attributes[i] := Some(args[i])];
        assert attributes[..i + 1][..i] == attributes[..i];
        assert Present(args)[..i + 1][..i] == Present(args)[..i];
      }
      assert attributes[..|attributes|] == attributes && Present(args)[..|args|] == Present(args);
    }

    /** The keyword branch of the constructor: each attribute, in declared order, gets its keyword's value or None. */
    method SetKeywords(kwds: seq<(string, V)>)
      requires fields == map[]
      modifies this
      ensures fields == Assigned(attributes, KeywordValues(attributes, kwds))
    {
      ghost var values := KeywordValues(attributes, kwds);
      for i := 0 to |attributes|
        invariant fields == Assigned(attributes[..i], values[..i])
      {
        var name := attributes[i];
        var given := Lookup(kwds, name);
        if given.Some? {
          fields := fields[name := Some(given.value)];
        } else {
          fields := fields[name := None];
        }
        assert attributes[..i + 1][..i] == attributes[..i];
        assert values[..i + 1][..i] == values[..i];
      }
      assert attributes[..|attributes|] == attributes && values[..|attributes|] == values;
    }

    /** __str__: every attribute in declared order, as its Section. */
    method ToString(show: V -> string) returns (s: string)
      requires forall i :: 0 <= i < |attributes| ==> attributes[i] in fields
      ensures s == Render(attributes, fields, show)
    {
      s := "";
      for i := 0 to |attributes|
        invariant s == Render(attributes[..i], fields, show)
      {
        var name := attributes[i];
        s := AppendSection(s, name, Text(fields[name], show));
        assert attributes[..i + 1][..i] == attributes[..i];
      }
      assert attributes[..|attributes|] == attributes;
    }
  }

  /** The validation loop of the keyword branch: the first keyword, in call order, that is no attribute. */
  method CheckKeywords<V>(attributes: seq<string>, kwds: seq<(string, V)>) returns (unknown: Option<string>)
    ensures unknown == FirstUnknown(attributes, kwds)
  {
    for j := 0 to |kwds|
      invariant FirstUnknown(attributes, kwds) == FirstUnknown(attributes, kwds[j..])
    {
      assert kwds[j..][1..] == kwds[j + 1..];
      if kwds[j].0 !in attributes {
        return Some(kwds[j].0);
      }
    }
    assert kwds[|kwds|..] == [];
    return None;
  }

  /**
   * Message(*args, **kwds): refuses mixed arguments, a wrong positional count
   * and any unknown keyword before setting anything; otherwise a new record
   * whose attributes are set positionally, or from the keywords with None for
   * the rest.
   */
  method Create<V>(attributes: seq<string>, messageClass: string, args: seq<V>, kwds: seq<(string, V)>)
    returns (r: Result<Message<V>, InitError>)
    ensures r.Success? <==> InitFields(attributes, messageClass, args, kwds).Success?
    ensures r.Failure? ==> r.error == InitFields(attributes, messageClass, args, kwds).error
    ensures r.Success? ==>
      && fresh(r.value) && r.value.attributes == attributes && r.value.messageClass == messageClass
      && r.value.fields == InitFields(attributes, messageClass, args, kwds).value
  {
    if args != [] && kwds != [] {
      return Failure(MixedArguments);
    }
    if args != [] {
      if |args| != |attributes| {
        return Failure(WrongArity(attributes));
      }
      var msg := new Message(attributes, messageClass);
      msg.SetPositional(args);
      return Success(msg);
    }
    var unknown := CheckKeywords(attributes, kwds);
    if unknown.Some? {
      return Failure(UnknownAttribute(unknown.value, messageClass));
    }
    var msg := new Message(attributes, messageClass);
    msg.SetKeywords(kwds);
    return Success(msg);
  }
}
