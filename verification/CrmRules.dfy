/** Replacing contact references inside the JSON rules of a CRM segment. */
module CrmRules {

  datatype Json =
    | Text(text: string)
    | Scalar(literal: string)
    | Items(items: seq<Json>)
    | Fields(keys: seq<string>, values: seq<Json>)

  datatype Replaced = Replaced(value: Json, changed: bool)
  datatype ReplacedAll = ReplacedAll(values: seq<Json>, changed: bool)

  /** A value that names no retired contact is returned as it is; keys are never replaced. */
  function Replace(j: Json, retired: set<string>, survivor: string): Replaced
    decreases j, 1
  {
    match j
    case Text(t) => if t in retired then Replaced(Text(survivor), true) else Replaced(j, false)
    case Scalar(_) => Replaced(j, false)
    case Items(items) =>
      var r := ReplaceAll(items, retired, survivor);
      Replaced(if r.changed then Items(r.values) else j, r.changed)
    case Fields(keys, values) =>
      var r := ReplaceAll(values, retired, survivor);
      Replaced(if r.changed then Fields(keys, r.values) else j, r.changed)
  }

  function ReplaceAll(js: seq<Json>, retired: set<string>, survivor: string): (r: ReplacedAll)
    ensures |r.values| == |js|
    decreases js, 0
  {
    if js == [] then ReplacedAll([], false)
    else
      var first := Replace(js[0], retired, survivor);
      var rest := ReplaceAll(js[1..], retired, survivor);
      ReplacedAll([first.value] + rest.values, first.changed || rest.changed)
  }

  /** Some string value, at any depth, is in `ids`. */
  ghost predicate Mentions(j: Json, ids: set<string>)
  {
    match j
    case Text(t) => t in ids
    case Scalar(_) => false
    case Items(items) => exists i :: 0 <= i < |items| && Mentions(items[i], ids)
    case Fields(_, values) => exists i :: 0 <= i < |values| && Mentions(values[i], ids)
  }

  /** `a` and `b` differ only in that string values of `a` in `ids` read `to` in `b`. */
  ghost predicate Renames(a: Json, b: Json, ids: set<string>, to: string)
  {
    match a
    case Text(t) => b == Text(if t in ids then to else t)
    case Scalar(_) => b == a
    case Items(items) =>
      b.Items? && |b.items| == |items| && forall i :: 0 <= i < |items| ==> Renames(items[i], b.items[i], ids, to)
    case Fields(keys, values) =>
      && b.Fields? && b.keys == keys && |b.values| == |values|
      && forall i :: 0 <= i < |values| ==> Renames(values[i], b.values[i], ids, to)
  }

  lemma {:induction false} ReplaceAllPointwise(js: seq<Json>, retired: set<string>, survivor: string)
    ensures var r := ReplaceAll(js, retired, survivor);
            && (forall i :: 0 <= i < |js| ==> r.values[i] == Replace(js[i], retired, survivor).value)
            && (r.changed <==> exists i :: 0 <= i < |js| && Replace(js[i], retired, survivor).changed)
    decreases |js|
  {
    if js != [] {
      ReplaceAllPointwise(js[1..], retired, survivor);
      var r, rest := ReplaceAll(js, retired, survivor), ReplaceAll(js[1..], retired, survivor);
      forall i | 0 <= i < |js| ensures r.values[i] == Replace(js[i], retired, survivor).value {
        if i > 0 {
          assert r.values[i] == rest.values[i - 1] && js[i] == js[1..][i - 1];
        }
      }
      if rest.changed {
        var i :| 0 <= i < |js[1..]| && Replace(js[1..][i], retired, survivor).changed;
        assert js[i + 1] == js[1..][i];
      }
      if i :| 0 <= i < |js| && Replace(js[i], retired, survivor).changed {
        if i > 0 {
          assert js[1..][i - 1] == js[i];
        }
      }
    }
  }

  /** The replacement renames exactly the retired references, reports a change exactly when there is one, leaves an
      unaffected value alone and leaves no retired reference behind. */
  lemma {:induction false} ReplaceRenames(j: Json, retired: set<string>, survivor: string)
    ensures var r := Replace(j, retired, survivor);
            && Renames(j, r.value, retired, survivor)
            && (r.changed <==> Mentions(j, retired))
            && (!r.changed ==> r.value == j)
            && (survivor !in retired ==> !Mentions(r.value, retired))
    decreases j
  {
    match j
    case Text(_) =>
    case Scalar(_) =>
    case Items(items) =>
      forall i | 0 <= i < |items| { ReplaceRenames(items[i], retired, survivor); }
      ReplaceAllPointwise(items, retired, survivor);
    case Fields(_, values) =>
      forall i | 0 <= i < |values| { ReplaceRenames(values[i], retired, survivor); }
      ReplaceAllPointwise(values, retired, survivor);
  }
}
