/**
 Node-name templates such as `{Name} ({Id})`, reduced to a sequence of
 literal text and field references, and the two ways the repository fills
 them in: plain `str.format_map`, where a missing field raises `KeyError`,
 and `format_map` over a `Default` dictionary, where a missing field
 renders as its own name.
 */
module Template {
  import opened Options

  /** One piece of a template: literal text, or a `{key}` reference. */
  datatype Token = Lit(text: string) | Field(key: string)

  /**
   The default `--node-name-format` of the event-driven command line in
   `aws_org_tree/aws_org_tree.py`. The other command line, `aws_org_tree.py`,
   defaults to `{Id}` instead.
   */
  const DefaultFormat: seq<Token> := [Field("Name"), Lit(" ("), Field("Id"), Lit(")")]

  /** Every field the template refers to has a value in `d`. */
  predicate Fills(tpl: seq<Token>, d: map<string, string>) {
    forall i :: 0 <= i < |tpl| && tpl[i].Field? ==> tpl[i].key in d
  }

  /** `tpl.format_map(d)`: `None` stands for the `KeyError` on the first missing field. */
  function FormatStrict(tpl: seq<Token>, d: map<string, string>): (r: Option<string>)
    ensures r.Some? <==> Fills(tpl, d)
    decreases |tpl|
  {
    if tpl == [] then Some("")
    else
      var rest := FormatStrict(tpl[1..], d);
      match tpl[0]
      case Lit(t) => if rest.Some? then Some(t + rest.value) else None
      case Field(k) => if k in d && rest.Some? then Some(d[k] + rest.value) else None
  }

  /** `Default.__missing__`: a lookup that answers a missing key with the key itself. */
  function DefaultLookup(d: map<string, string>, k: string): (r: string)
  {
    if k in d then d[k] else k
  }

  /** `tpl.format_map(Default(d))`: never fails. */
  function FormatDefault(tpl: seq<Token>, d: map<string, string>): (r: string)
    decreases |tpl|
  {
    if tpl == [] then ""
    else
      match tpl[0]
      case Lit(t) => t + FormatDefault(tpl[1..], d)
      case Field(k) => DefaultLookup(d, k) + FormatDefault(tpl[1..], d)
  }

  /** When every field is present the fallback never fires: both formats agree. */
  lemma {:induction false} DefaultAgreesWhenFilled(tpl: seq<Token>, d: map<string, string>)
    requires Fills(tpl, d)
    ensures FormatStrict(tpl, d) == Some(FormatDefault(tpl, d))
    decreases |tpl|
  {
    if tpl != [] {
      assert Fills(tpl[1..], d) by {
        forall i | 0 <= i < |tpl[1..]| && tpl[1..][i].Field? ensures tpl[1..][i].key in d {
          assert tpl[1..][i] == tpl[i + 1];
        }
      }
      DefaultAgreesWhenFilled(tpl[1..], d);
    }
  }

  /** `d` with every field of `tpl` it lacks bound to the field's own name. */
  function Completed(tpl: seq<Token>, d: map<string, string>): (c: map<string, string>)
    ensures Fills(tpl, c)
    ensures forall k :: k in d ==> k in c && c[k] == d[k]
    ensures forall k :: k in c && k !in d ==> c[k] == k
  {
    var keys := set i | 0 <= i < |tpl| && tpl[i].Field? :: tpl[i].key;
    map k | k in d.Keys + keys :: if k in d then d[k] else k
  }

  /**
   Formatting over `Default(d)` is strict formatting over `d` completed with
   each missing field bound to its own name.
   */
  lemma {:induction false} DefaultIsStrictOnCompleted(tpl: seq<Token>, d: map<string, string>, c: map<string, string>)
    requires forall k :: k in d ==> k in c && c[k] == d[k]
    requires forall k :: k in c && k !in d ==> c[k] == k
    requires Fills(tpl, c)
    ensures FormatStrict(tpl, c) == Some(FormatDefault(tpl, d))
    decreases |tpl|
  {
    if tpl != [] {
      assert Fills(tpl[1..], c) by {
        forall i | 0 <= i < |tpl[1..]| && tpl[1..][i].Field? ensures tpl[1..][i].key in c {
          assert tpl[1..][i] == tpl[i + 1];
        }
      }
      DefaultIsStrictOnCompleted(tpl[1..], d, c);
    }
  }

  /** The default template over a resource without `Name` renders the word `Name`. */
  lemma DefaultFormatFallback(id: string)
    ensures FormatDefault(DefaultFormat, map["Id" := id]) == "Name (" + id + ")"
    ensures FormatStrict(DefaultFormat, map["Id" := id]).None?
  {
    var d := map["Id" := id];
    assert DefaultFormat[1..][1..][1..][1..] == [];
    assert !Fills(DefaultFormat, d) by {
      assert DefaultFormat[0] == Field("Name");
    }
  }
}
