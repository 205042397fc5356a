// Looking a translated text up by dotted key, with the fallback from locale to locale
// (client/src/i18n/I18nProvider.tsx:19-27, 76-86).
module Translations {
  import opened Templates

  datatype Node = Leaf(text: string) | Dict(entries: map<string, Node>)

  /** key.split("."): always at least one part, possibly empty ones. */
  function Split(key: string): (parts: seq<string>)
    ensures parts != []
  {
    if key == "" then [""]
    else
      var rest := Split(key[1..]);
      if key[0] == '.' then [""] + rest else [[key[0]] + rest[0]] + rest[1..]
  }

  function Join(parts: seq<string>): string
    requires parts != []
  {
    if |parts| == 1 then parts[0] else parts[0] + "." + Join(parts[1..])
  }

  lemma {:induction false} SplitPart(part: string, rest: string)
    requires '.' !in part
    ensures Split(part + "." + rest) == [part] + Split(rest)
  {
    if part == "" {
      assert part + "." + rest == "." + rest;
      assert ("." + rest)[1..] == rest;
    } else {
      var key := part + "." + rest;
      assert key[1..] == part[1..] + "." + rest;
      SplitPart(part[1..], rest);
      assert [part[0]] + part[1..] == part;
    }
  }

  lemma {:induction false} SplitLast(part: string)
    requires '.' !in part
    ensures Split(part) == [part]
  {
    if part != "" {
      SplitLast(part[1..]);
      assert [part[0]] + part[1..] == part;
    }
  }

  /** A key written as dot-free parts is read as those parts. */
  lemma {:induction false} SplitJoin(parts: seq<string>)
    requires parts != [] && forall k :: 0 <= k < |parts| ==> '.' !in parts[k]
    ensures Split(Join(parts)) == parts
  {
    if |parts| == 1 {
      SplitLast(parts[0]);
    } else {
      SplitJoin(parts[1..]);
      SplitPart(parts[0], Join(parts[1..]));
      assert [parts[0]] + parts[1..] == parts;
    }
  }

  lemma {:induction false} JoinSplit(key: string)
    ensures Join(Split(key)) == key
  {
    if key != "" {
      JoinSplit(key[1..]);
      var rest := Split(key[1..]);
      assert [key[0]] + key[1..] == key;
      if key[0] == '.' {
        assert ([""] + rest)[1..] == rest;
        assert "" + "." + Join(rest) == key;
      } else if |rest| > 1 {
        var parts := [[key[0]] + rest[0]] + rest[1..];
        assert parts[1..] == rest[1..];
        assert [key[0]] + rest[0] + "." + Join(rest[1..]) == [key[0]] + (rest[0] + "." + Join(rest[1..]));
      }
    }
  }

  /** The text the parts lead to: undefined past a text, past a missing entry, and on a dictionary. */
  function Follow(node: Option<Node>, parts: seq<string>): Option<string>
    decreases |parts|
  {
    match node
    case None => None
    case Some(Leaf(text)) => if parts == [] then Some(text) else None
    case Some(Dict(entries)) =>
      if parts == [] then None
      else Follow(if parts[0] in entries then Some(entries[parts[0]]) else None, parts[1..])
  }

  /** The nodes met on the way: each a dictionary with an entry for the next part, the last
      a text. */
  ghost predicate LeadsTo(node: Node, parts: seq<string>, nodes: seq<Node>, text: string)
  {
    && |nodes| == |parts| + 1 && nodes[0] == node && nodes[|parts|] == Leaf(text)
    && forall k :: 0 <= k < |parts| ==>
         nodes[k].Dict? && parts[k] in nodes[k].entries && nodes[k + 1] == nodes[k].entries[parts[k]]
  }

  lemma {:induction false} FollowedPath(node: Node, parts: seq<string>) returns (nodes: seq<Node>)
    requires Follow(Some(node), parts).Some?
    ensures LeadsTo(node, parts, nodes, Follow(Some(node), parts).value)
    decreases |parts|
  {
    if parts == [] {
      nodes := [node];
    } else {
      var rest := FollowedPath(node.entries[parts[0]], parts[1..]);
      nodes := [node] + rest;
      assert forall k :: 0 < k < |parts| ==> parts[k] == parts[1..][k - 1] && nodes[k] == rest[k - 1];
    }
  }

  lemma {:induction false} PathIsFollowed(node: Node, parts: seq<string>, nodes: seq<Node>, text: string)
    requires LeadsTo(node, parts, nodes, text)
    ensures Follow(Some(node), parts) == Some(text)
    decreases |parts|
  {
    if parts != [] {
      assert nodes[0] == node && nodes[0 + 1] == node.entries[parts[0]];
      PathIsFollowed(nodes[1], parts[1..], nodes[1..], text);
    }
  }

  /** A text is found exactly when the parts lead to it, entry by entry. */
  lemma FoundIff(dict: map<string, Node>, key: string, text: string)
    ensures Follow(Some(Dict(dict)), Split(key)) == Some(text) <==> exists nodes :: LeadsTo(Dict(dict), Split(key), nodes, text)
  {
    if Follow(Some(Dict(dict)), Split(key)) == Some(text) {
      var nodes := FollowedPath(Dict(dict), Split(key));
    }
    if nodes :| LeadsTo(Dict(dict), Split(key), nodes, text) {
      PathIsFollowed(Dict(dict), Split(key), nodes, text);
    }
  }

  method ResolveDotPath(dict: map<string, Node>, key: string) returns (text: Option<string>)
    ensures text == Follow(Some(Dict(dict)), Split(key))
  {
    var parts := Split(key);
    var node := Some(Dict(dict));
    for k := 0 to |parts|
      invariant Follow(node, parts[k..]) == Follow(Some(Dict(dict)), parts)
    {
      assert parts[k..][0] == parts[k] && parts[k..][1..] == parts[k + 1..];
      if node.None? || !node.value.Dict? {
        return None;
      }
      var entries := node.value.entries;
      node := if parts[k] in entries then Some(entries[parts[k]]) else None;
    }
    text := if node.Some? && node.value.Leaf? then Some(node.value.text) else None;
  }

  /** t(): the current locale, then the default one, then the key itself. */
  method Translate(current: map<string, Node>, default: map<string, Node>, key: string, vars: Vars) returns (text: string)
    ensures var here, there := Follow(Some(Dict(current)), Split(key)), Follow(Some(Dict(default)), Split(key));
            && (here.Some? ==> text == Print(Parse(here.value), vars))
            && (here.None? && there.Some? ==> text == Print(Parse(there.value), vars))
            && (here.None? && there.None? ==> text == key)
  {
    var found := ResolveDotPath(current, key);
    if found.None? {
      found := ResolveDotPath(default, key);
    }
    if found.None? {
      return key;
    }
    InterpolateIsParsePrint(found.value, vars);
    text := Interpolate(found.value, vars);
  }
}
