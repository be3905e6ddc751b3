/** Redaction of credential material in exported JSON and JSON Lines files.

    JSON values are trees; redaction is specified on them, and carried out in place on the dicts and
    lists that a parsed document consists of. */
module SecretRedaction {
  import opened Wrappers

  const REDACTED_SECRET_VALUE: string := "**********"
  const FERNET_TOKEN_PREFIX: string := "gAAAAA"
  const TRAJECTORY_SECRET_FIELDS: set<string> :=
    {"api_key", "aws_access_key_id", "aws_secret_access_key", "aws_session_token", "llm_api_key"}

  datatype Json =
    | Null
    | Bool(b: bool)
    | Number(text: string)    // as Python prints it, NaN and the infinities included
    | String(s: string)
    | Array(items: seq<Json>)
    | Object(members: seq<Member>)

  /** Members in insertion order. */
  datatype Member = Member(key: string, value: Json)

  /** `_is_secret_value`; array items have no key. */
  predicate IsSecret(key: Option<string>, v: Json) {
    && v.String? && v.s != "" && v.s != REDACTED_SECRET_VALUE
    && (FERNET_TOKEN_PREFIX <= v.s || (key.Some? && key.value in TRAJECTORY_SECRET_FIELDS))
  }

  // ---------------------------------------------------------------------------------------
  // Children and paths
  // ---------------------------------------------------------------------------------------

  function Size(j: Json): nat {
    match j
    case Array(items) => |items|
    case Object(members) => |members|
    case _ => 0
  }

  function Child(j: Json, i: nat): (c: Json)
    requires i < Size(j)
    ensures c < j
  {
    match j
    case Array(items) => items[i]
    case Object(members) => members[i].value
  }

  function ChildKey(j: Json, i: nat): Option<string>
    requires i < Size(j)
  {
    match j
    case Array(_) => None
    case Object(members) => Some(members[i].key)
  }

  /** The value a path of child positions leads to. */
  function At(j: Json, path: seq<nat>): Option<Json> {
    if path == [] then Some(j)
    else if path[0] < Size(j) then At(Child(j, path[0]), path[1..])
    else None
  }

  /** The key under which that value hangs. */
  function KeyAt(j: Json, path: seq<nat>): Option<string> {
    if path == [] || path[0] >= Size(j) then None
    else if |path| == 1 then ChildKey(j, path[0])
    else KeyAt(Child(j, path[0]), path[1..])
  }

  /** No value below `j` is a secret. */
  predicate Clean(j: Json)
    decreases j
  {
    forall i :: 0 <= i < Size(j) ==> !IsSecret(ChildKey(j, i), Child(j, i)) && Clean(Child(j, i))
  }

  /** No object has two members of the same key, as in every parsed document. */
  predicate UniqueKeys(j: Json)
    decreases j
  {
    && (j.Object? ==> forall i, k :: 0 <= i < k < |j.members| ==> j.members[i].key != j.members[k].key)
    && (forall i :: 0 <= i < Size(j) ==> UniqueKeys(Child(j, i)))
  }

  // ---------------------------------------------------------------------------------------
  // Redaction
  // ---------------------------------------------------------------------------------------

  function RedactValue(key: Option<string>, v: Json): Json
    decreases v, 1
  {
    if IsSecret(key, v) then String(REDACTED_SECRET_VALUE) else Redact(v)
  }

  function Redact(j: Json): (r: Json)
    decreases j, 0
    ensures Size(r) == Size(j)
  {
    match j
    case Array(items) => Array(seq(|items|, i requires 0 <= i < |items| => RedactValue(None, items[i])))
    case Object(members) =>
      Object(seq(|members|, i requires 0 <= i < |members| =>
        Member(members[i].key, RedactValue(Some(members[i].key), members[i].value))))
    case _ => j
  }

  lemma RedactChild(j: Json, i: nat)
    requires i < Size(j)
    ensures ChildKey(Redact(j), i) == ChildKey(j, i)
    ensures Child(Redact(j), i) == RedactValue(ChildKey(j, i), Child(j, i))
  {
  }

  /** Two containers with the same shape and the same children are equal. */
  lemma SameChildren(j: Json)
    requires forall i :: 0 <= i < Size(j) ==> RedactValue(ChildKey(j, i), Child(j, i)) == Child(j, i)
    ensures Redact(j) == j
  {
    if j.Array? {
      forall i | 0 <= i < |j.items| ensures Redact(j).items[i] == j.items[i] {
        assert RedactValue(ChildKey(j, i), Child(j, i)) == Child(j, i);
      }
    } else if j.Object? {
      forall i | 0 <= i < |j.members| ensures Redact(j).members[i] == j.members[i] {
        assert RedactValue(ChildKey(j, i), Child(j, i)) == Child(j, i);
      }
    }
  }

  /** Complete: no secret is left at any depth. */
  lemma {:induction false} RedactIsClean(j: Json)
    ensures Clean(Redact(j))
    decreases j
  {
    var r := Redact(j);
    forall i | 0 <= i < Size(r) ensures !IsSecret(ChildKey(r, i), Child(r, i)) && Clean(Child(r, i)) {
      RedactChild(j, i);
      RedactIsClean(Child(j, i));
    }
  }

  /** Redaction changes nothing exactly if there is no secret to redact. */
  lemma {:induction false} RedactFixesExactlyClean(j: Json)
    ensures Redact(j) == j <==> Clean(j)
    decreases j
  {
    forall i | 0 <= i < Size(j)
      ensures RedactValue(ChildKey(j, i), Child(j, i)) == Child(j, i)
         <==> !IsSecret(ChildKey(j, i), Child(j, i)) && Clean(Child(j, i))
    {
      RedactFixesExactlyClean(Child(j, i));
    }
    if Clean(j) {
      SameChildren(j);
    }
    if Redact(j) == j {
      forall i | 0 <= i < Size(j) ensures RedactValue(ChildKey(j, i), Child(j, i)) == Child(j, i) {
        RedactChild(j, i);
      }
    }
  }

  /** Redaction looks at members and items. A document that is nothing but a string is left as it is,
      even if that string is an encrypted secret. */
  lemma BareTokenIsKept()
    ensures IsSecret(None, String("gAAAAA")) && Redact(String("gAAAAA")) == String("gAAAAA") && Clean(String("gAAAAA"))
  {
    RedactFixesExactlyClean(String("gAAAAA"));
  }

  lemma RedactIdempotent(j: Json)
    ensures Redact(Redact(j)) == Redact(j)
  {
    RedactIsClean(j);
    RedactFixesExactlyClean(Redact(j));
  }

  /** Minimal: the same paths exist before and after, with the same keys, and below the top every
      value that is neither a secret nor a container is what it was. */
  lemma {:induction false} RedactAtPath(j: Json, path: seq<nat>)
    ensures KeyAt(Redact(j), path) == KeyAt(j, path)
    ensures At(j, path).None? <==> At(Redact(j), path).None?
    ensures At(j, path).Some? && path != [] ==>
              At(Redact(j), path) == Some(RedactValue(KeyAt(j, path), At(j, path).value))
    decreases j
  {
    if path != [] && path[0] < Size(j) {
      var c, k := Child(j, path[0]), ChildKey(j, path[0]);
      RedactChild(j, path[0]);
      if |path| > 1 {
        RedactAtPath(c, path[1..]);
        if IsSecret(k, c) {
          assert Size(c) == 0;
        }
      }
    }
  }

  lemma {:induction false} RedactKeepsUniqueKeys(j: Json)
    requires UniqueKeys(j)
    ensures UniqueKeys(Redact(j))
    decreases j
  {
    var r := Redact(j);
    forall i | 0 <= i < Size(r) ensures UniqueKeys(Child(r, i)) {
      RedactChild(j, i);
      assert UniqueKeys(Child(j, i));
      RedactKeepsUniqueKeys(Child(j, i));
    }
  }

  // ---------------------------------------------------------------------------------------
  // Which strings are redacted, in so many words
  // ---------------------------------------------------------------------------------------

  predicate UnderCredentialKey(key: Option<string>) {
    || key == Some("api_key") || key == Some("aws_access_key_id") || key == Some("aws_secret_access_key")
    || key == Some("aws_session_token") || key == Some("llm_api_key")
  }

  /** A member: its key stays; a string that is an encrypted token, or that hangs under one of the five
      credential keys and is neither empty nor the marker, becomes the marker; else it is redacted below. */
  lemma RedactMember(members: seq<Member>, i: nat)
    requires i < |members|
    ensures var r, m := Redact(Object(members)), members[i];
            && r.Object? && |r.members| == |members| && r.members[i].key == m.key
            && r.members[i].value ==
               if && m.value.String?
                  && ("gAAAAA" <= m.value.s
                      || (&& m.value.s != "" && m.value.s != "**********"
                          && UnderCredentialKey(Some(m.key))))
               then String("**********") else Redact(m.value)
  {
  }

  /** An item of an array: an encrypted token becomes the marker. */
  lemma RedactItem(items: seq<Json>, i: nat)
    requires i < |items|
    ensures var r := Redact(Array(items));
            && r.Array? && |r.items| == |items|
            && r.items[i] ==
               if items[i].String? && "gAAAAA" <= items[i].s then String("**********") else Redact(items[i])
  {
  }

  /** What paths are. */
  lemma PathMeans(members: seq<Member>, items: seq<Json>, i: nat, path: seq<nat>, j: Json)
    ensures At(j, []) == Some(j) && KeyAt(j, []) == None
    ensures i < |members| ==>
              && At(Object(members), [i] + path) == At(members[i].value, path)
              && KeyAt(Object(members), [i] + path) ==
                 if path == [] then Some(members[i].key) else KeyAt(members[i].value, path)
    ensures i < |items| ==>
              && At(Array(items), [i] + path) == At(items[i], path)
              && KeyAt(Array(items), [i] + path) == if path == [] then None else KeyAt(items[i], path)
  {
    assert ([i] + path)[1..] == path;
  }

  /** Wherever the result has a string below the top, it is no encrypted token, and under a credential key
      it is empty or the marker. */
  lemma NoSecretRemains(j: Json, path: seq<nat>, s: string)
    requires path != [] && At(Redact(j), path) == Some(String(s))
    ensures !("gAAAAA" <= s)
    ensures var key := KeyAt(Redact(j), path);
            (|| key == Some("api_key") || key == Some("aws_access_key_id") || key == Some("aws_secret_access_key")
             || key == Some("aws_session_token") || key == Some("llm_api_key")) ==> s == "" || s == "**********"
  {
    assert "**********"[0] != "gAAAAA"[0];
    RedactAtPath(j, path);
  }

  /** A string of the input becomes the marker if it is a token, or under a credential key and not empty;
      every other string, and every other value that is no container, is found where it was. */
  lemma OthersAreKept(j: Json, path: seq<nat>)
    requires path != [] && At(j, path).Some?
    ensures var v, r := At(j, path).value, At(Redact(j), path);
            && (v.String? && ("gAAAAA" <= v.s || (UnderCredentialKey(KeyAt(j, path)) && v.s != "")) ==>
                  r == Some(String("**********")))
            && (v.String? && !("gAAAAA" <= v.s) && !UnderCredentialKey(KeyAt(j, path)) ==> r == Some(v))
            && (v.String? && v.s == "" ==> r == Some(v))
            && (v.Null? || v.Bool? || v.Number? ==> r == Some(v))
            && (v.Array? ==> r.Some? && r.value.Array? && |r.value.items| == |v.items|)
            && (v.Object? ==> r.Some? && r.value.Object? && |r.value.members| == |v.members|)
  {
    RedactAtPath(j, path);
  }

  // ---------------------------------------------------------------------------------------
  // Redaction in place
  // ---------------------------------------------------------------------------------------

  /** What a dict or a list refers to: a value that is not a container, or another container. */
  datatype Slot = Leaf(value: Json) | Ref(node: Container)

  /** A dict, whose keys stay as they are, or a list. */
  class Container {
    const keys: Option<seq<string>>
    var slots: seq<Slot>

    constructor (keys: Option<seq<string>>, slots: seq<Slot>)
      ensures this.keys == keys && this.slots == slots
    {
      this.keys, this.slots := keys, slots;
    }

    function Key(i: nat): (key: Option<string>)
      requires keys.Some? ==> i < |keys.value|
    {
      if keys.Some? then Some(keys.value[i]) else None
    }
  }

  /** The containers below a slot, as the tree they form. */
  datatype Tree = Tip | Node(node: Container, kids: seq<Tree>)

  ghost function Footprint(t: Tree): set<Container> {
    match t
    case Tip => {}
    case Node(node, kids) => {node} + set i, c | 0 <= i < |kids| && c in Footprint(kids[i]) :: c
  }

  lemma {:induction false} FootprintExists(t: Tree)
    ensures forall c :: c in Footprint(t) ==> allocated(c)
    decreases t
  {
    if t.Node? {
      forall i | 0 <= i < |t.kids| ensures forall c :: c in Footprint(t.kids[i]) ==> allocated(c) {
        FootprintExists(t.kids[i]);
      }
    }
  }

  /** The slot holds exactly the tree `t`, in which no container occurs twice, as after parsing. */
  ghost predicate Holds(s: Slot, t: Tree)
    reads Footprint(t)
    decreases t
  {
    match s
    case Leaf(v) => t.Tip? && !v.Array? && !v.Object?
    case Ref(node) =>
      && t.Node? && t.node == node
      && |node.slots| == |t.kids| && (node.keys.Some? ==> |node.keys.value| == |t.kids|)
      && (forall i :: 0 <= i < |t.kids| ==> node !in Footprint(t.kids[i]))
      && (forall i, k :: 0 <= i < |t.kids| && 0 <= k < |t.kids| && i != k ==>
            Footprint(t.kids[i]) !! Footprint(t.kids[k]))
      && (forall i :: 0 <= i < |t.kids| ==> Holds(node.slots[i], t.kids[i]))
  }

  /** The JSON value a slot stands for. */
  function Value(s: Slot, ghost t: Tree): (j: Json)
    requires Holds(s, t)
    reads Footprint(t)
    decreases t
  {
    match s
    case Leaf(v) => v
    case Ref(node) => Build(node.keys, Values(node, t))
  }

  function Values(node: Container, ghost t: Tree): (vs: seq<Json>)
    requires Holds(Ref(node), t)
    reads Footprint(t)
    ensures |vs| == |t.kids|
    ensures forall i :: 0 <= i < |vs| ==> vs[i] == Value(node.slots[i], t.kids[i])
    decreases t, 0
  {
    seq(|node.slots|,
        i requires 0 <= i < |t.kids| && Holds(Ref(node), t) reads Footprint(t) => Value(node.slots[i], t.kids[i]))
  }

  function Build(keys: Option<seq<string>>, vs: seq<Json>): (j: Json)
    requires keys.Some? ==> |keys.value| == |vs|
    ensures Size(j) == |vs|
    ensures forall i :: 0 <= i < |vs| ==> Child(j, i) == vs[i]
    ensures forall i :: 0 <= i < |vs| ==> ChildKey(j, i) == if keys.Some? then Some(keys.value[i]) else None
  {
    if keys.None? then Array(vs)
    else Object(seq(|vs|, i requires 0 <= i < |vs| => Member(keys.value[i], vs[i])))
  }

  /** A dict stands for the object with its keys and what its slots stand for, in order; a list for the
      array of what its slots stand for. */
  lemma ValueMeans(node: Container, t: Tree, i: nat)
    requires Holds(Ref(node), t) && i < |node.slots|
    ensures var j, v := Value(Ref(node), t), Value(node.slots[i], t.kids[i]);
            if node.keys.Some?
            then j.Object? && |j.members| == |node.slots| && j.members[i] == Member(node.keys.value[i], v)
            else j.Array? && |j.items| == |node.slots| && j.items[i] == v
    ensures node.slots[i].Leaf? ==> Value(node.slots[i], t.kids[i]) == node.slots[i].value
  {
  }

  function KeysOf(j: Json): (keys: Option<seq<string>>)
    ensures keys.Some? ==> |keys.value| == Size(j)
    ensures j.Array? || j.Object? ==> Build(keys, Children(j)) == j
  {
    if j.Object? then
      Some(seq(|j.members|, i requires 0 <= i < |j.members| => j.members[i].key))
    else None
  }

  function Children(j: Json): (vs: seq<Json>)
    ensures |vs| == Size(j)
  {
    seq(Size(j), i requires 0 <= i < Size(j) => Child(j, i))
  }

  /** Slots that hold trees of new containers, with none in common. */
  ghost predicate Apart(slots: seq<Slot>, kids: seq<Tree>)
    reads set k, c | 0 <= k < |kids| && c in Footprint(kids[k]) :: c
  {
    && |slots| == |kids|
    && (forall k :: 0 <= k < |kids| ==> Holds(slots[k], kids[k]))
    && (forall k, m :: 0 <= k < |kids| && 0 <= m < |kids| && k != m ==> Footprint(kids[k]) !! Footprint(kids[m]))
  }

  /** Parsed documents are trees of new containers, so that redaction applies to every one of them. */
  method Allocate(j: Json) returns (s: Slot, ghost t: Tree)
    ensures Holds(s, t) && Value(s, t) == j
    ensures fresh(Footprint(t))
    decreases j, 1
  {
    if !j.Array? && !j.Object? {
      return Leaf(j), Tip;
    }
    var slots;
    ghost var kids;
    slots, kids := AllocateChildren(j);
    forall k | 0 <= k < |kids| ensures forall c :: c in Footprint(kids[k]) ==> allocated(c) {
      FootprintExists(kids[k]);
    }
    var node := new Container(KeysOf(j), slots);
    s, t := Ref(node), Node(node, kids);
    assert Values(node, t) == Children(j);
  }

  method AllocateChildren(j: Json) returns (slots: seq<Slot>, ghost kids: seq<Tree>)
    ensures |kids| == Size(j) && Apart(slots, kids)
    ensures forall k :: 0 <= k < |kids| ==> Value(slots[k], kids[k]) == Child(j, k) && fresh(Footprint(kids[k]))
    decreases j, 0
  {
    slots, kids := [], [];
    for i := 0 to Size(j)
      invariant |kids| == i && Apart(slots, kids)
      invariant forall k :: 0 <= k < i ==> Value(slots[k], kids[k]) == Child(j, k) && fresh(Footprint(kids[k]))
      invariant forall k, c :: 0 <= k < i && c in Footprint(kids[k]) ==> allocated(c)
    {
      var slot;
      ghost var kid;
      slot, kid := Allocate(Child(j, i));
      FootprintExists(kid);
      slots, kids := slots + [slot], kids + [kid];
    }
  }

  /** Redacting a container redacts its values. */
  lemma RedactBuild(keys: Option<seq<string>>, vs: seq<Json>, ws: seq<Json>)
    requires |vs| == |ws| && (keys.Some? ==> |keys.value| == |vs|)
    requires forall i :: 0 <= i < |vs| ==> ws[i] == RedactValue(if keys.Some? then Some(keys.value[i]) else None, vs[i])
    ensures Build(keys, ws) == Redact(Build(keys, vs))
  {
  }

  /** The value in one slot of a container. */
  ghost function ValueAt(node: Container, t: Tree, i: nat): Json
    requires Holds(Ref(node), t) && i < |t.kids|
    reads Footprint(t)
  {
    Value(node.slots[i], t.kids[i])
  }

  /** `redact_secrets_in_obj`: afterwards the same containers hold the redacted value. */
  method RedactSecrets(obj: Slot, ghost t: Tree) returns (changed: bool)
    requires Holds(obj, t)
    modifies Footprint(t)
    ensures Holds(obj, t) && Value(obj, t) == Redact(old(Value(obj, t)))
    ensures changed <==> !Clean(old(Value(obj, t)))
    ensures changed <==> Value(obj, t) != old(Value(obj, t))
    decreases t, 0
  {
    changed := false;
    ghost var before := Value(obj, t);
    if obj.Leaf? {
      return;
    }
    var node := obj.node;
    ghost var was := Values(node, t);
    for i := 0 to |node.slots|
      invariant |node.slots| == |was| && Holds(Ref(node), t)
      invariant forall k :: 0 <= k < i ==> ValueAt(node, t, k) == RedactValue(node.Key(k), was[k])
      invariant forall k :: i <= k < |was| ==> ValueAt(node, t, k) == was[k]
      invariant changed <==> exists k :: 0 <= k < i && (IsSecret(node.Key(k), was[k]) || !Clean(was[k]))
    {
      var here := RedactSlot(node, i, t);
      changed := changed || here;
    }
    RedactBuild(node.keys, was, Values(node, t));
    RedactFixesExactlyClean(before);
  }

  /** One round of its loops: only the slot at `i`, and what it refers to, is redacted. */
  method RedactSlot(node: Container, i: nat, ghost t: Tree) returns (changed: bool)
    requires Holds(Ref(node), t) && i < |node.slots|
    modifies Footprint(t)
    ensures Holds(Ref(node), t)
    ensures ValueAt(node, t, i) == RedactValue(node.Key(i), old(ValueAt(node, t, i)))
    ensures forall k :: 0 <= k < |t.kids| && k != i ==> ValueAt(node, t, k) == old(ValueAt(node, t, k))
    ensures changed <==> IsSecret(node.Key(i), old(ValueAt(node, t, i))) || !Clean(old(ValueAt(node, t, i)))
    decreases t.kids[i], 1
  {
    forall k | 0 <= k < |t.kids| ensures forall c :: c in Footprint(t.kids[k]) ==> allocated(c) {
      FootprintExists(t.kids[k]);
    }
    var s := node.slots[i];
    if s.Leaf? && IsSecret(node.Key(i), s.value) {
      node.slots := node.slots[i := Leaf(String(REDACTED_SECRET_VALUE))];
      changed := true;
    } else {
      changed := RedactSecrets(s, t.kids[i]);
      forall k | 0 <= k < |t.kids| && k != i ensures unchanged(Footprint(t.kids[k])) {
        assert Footprint(t.kids[k]) !! Footprint(t.kids[i]);
      }
    }
  }

  /** Parse, redact in place, print. */
  method RedactDocument(j: Json) returns (r: Json, changed: bool)
    ensures r == Redact(j)
    ensures changed <==> r != j
    ensures changed <==> !Clean(j)
  {
    var obj;
    ghost var t;
    obj, t := Allocate(j);
    changed := RedactSecrets(obj, t);
    r := Value(obj, t);
  }
}
