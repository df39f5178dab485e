/** The rules of the policy check said another way: what counts as equal and as empty in Python, and
    the fields of a valid pair as tables. */
module PolicyRules {
  import opened PolicyDelta
  import opened Wrappers

  /** Python's `==` on JSON values, without a canonical form. */
  predicate PyEq(a: Json, b: Json) {
    match (a, b)
    case (Null, Null) => true
    case (Bool(x), Bool(y)) => x == y
    case (Bool(x), Number(y)) => y == if x then 1.0 else 0.0
    case (Number(x), Bool(y)) => x == if y then 1.0 else 0.0
    case (Number(x), Number(y)) => x == y
    case (Text(s), Text(t)) => s == t
    case (Array(xs), Array(ys)) => |xs| == |ys| && forall i | 0 <= i < |xs| :: PyEq(xs[i], ys[i])
    case (Object(fs), Object(gs)) => fs.Keys == gs.Keys && forall k | k in fs :: PyEq(fs[k], gs[k])
    case _ => false
  }

  /** Two values have one canonical form exactly when Python finds them equal. */
  lemma {:induction false} CanonIsPyEq(a: Json, b: Json)
    ensures Canon(a) == Canon(b) <==> PyEq(a, b)
    decreases a
  {
    match (a, b)
    case (Array(xs), Array(ys)) =>
      forall i | 0 <= i < |xs| && i < |ys| ensures Canon(xs[i]) == Canon(ys[i]) <==> PyEq(xs[i], ys[i]) {
        CanonIsPyEq(xs[i], ys[i]);
      }
      var cx, cy := Canon(a).items, Canon(b).items;
      assert forall i | 0 <= i < |xs| :: cx[i] == Canon(xs[i]);
      assert forall i | 0 <= i < |ys| :: cy[i] == Canon(ys[i]);
      if PyEq(a, b) {
        assert cx == cy;
      }
    case (Object(fs), Object(gs)) =>
      forall k | k in fs && k in gs ensures Canon(fs[k]) == Canon(gs[k]) <==> PyEq(fs[k], gs[k]) {
        CanonIsPyEq(fs[k], gs[k]);
      }
      var cf, cg := Canon(a).fields, Canon(b).fields;
      assert cf.Keys == fs.Keys && cg.Keys == gs.Keys;
      assert forall k | k in fs :: cf[k] == Canon(fs[k]);
      assert forall k | k in gs :: cg[k] == Canon(gs[k]);
      if PyEq(a, b) {
        assert cf == cg;
      }
    case _ =>
  }

  /** What Python takes for false. */
  lemma FalsyExactly(v: Json)
    ensures Falsy(v) <==> v in {Null, Bool(false), Number(0.0), Text(""), Array([]), Object(map[])}
  {
  }

  lemma StatesExactly(v: Json)
    ensures v.Array? ==> (StatesAre(v) <==> (set x | x in v.items) == {Text("RELATED"), Text("ESTABLISHED")})
    ensures v.Object? ==> (StatesAre(v) <==> forall k :: k in v.fields <==> k in ["RELATED", "ESTABLISHED"])
    ensures !v.Array? && !v.Object? ==> !StatesAre(v)
  {
    if v.Array? {
      var all := set x | x in v.items;
      assert StatesAre(v) ==> all == {Text("RELATED"), Text("ESTABLISHED")};
      if all == {Text("RELATED"), Text("ESTABLISHED")} {
        assert Text("RELATED") in all && Text("ESTABLISHED") in all;
        assert forall x | x in v.items :: x in all;
      }
    }
  }

  // ---------------------------------------------------------------- the inventory

  predicate Scalar(v: Json) { v.Null? || v.Bool? || v.Number? || v.Text? }

  /** A policy has an id that can be a dict key. */
  predicate HasId(policy: Json) { policy.Object? && "_id" in policy.fields && Scalar(policy.fields["_id"]) }

  function IdOf(policy: Json): Json { if HasId(policy) then policy.fields["_id"] else Null }

  predicate AllHaveIds(policies: seq<Json>) { forall i | 0 <= i < |policies| :: HasId(policies[i]) }

  predicate IdsDiffer(policies: seq<Json>) {
    forall i, j | 0 <= i < j < |policies| :: !PyEq(IdOf(policies[i]), IdOf(policies[j]))
  }

  /** The inventory is the policies by their ids. */
  ghost predicate ById(policies: seq<Json>, inv: Inventory) {
    && (forall i | 0 <= i < |policies| :: HasId(policies[i]) && Canon(IdOf(policies[i])) in inv
          && inv[Canon(IdOf(policies[i]))] == policies[i].fields)
    && (forall k | k in inv :: exists i | 0 <= i < |policies| :: Canon(IdOf(policies[i])) == k)
  }

  lemma IdentIs(policy: Json)
    ensures Ident(policy) == if HasId(policy) then Some(Canon(IdOf(policy))) else None
  {
  }

  /** A list of policies has an inventory exactly when each has an id that can be a key and no two ids
      are equal; and it is the policies by their ids. */
  lemma {:induction false} CollectExactly(policies: seq<Json>)
    ensures Collect(policies).Some? <==> AllHaveIds(policies) && IdsDiffer(policies)
    ensures Collect(policies).Some? ==> ById(policies, Collect(policies).value)
  {
    if policies != [] {
      var n := |policies| - 1;
      var init, last := policies[..n], policies[n];
      CollectExactly(init);
      IdentIs(last);
      assert policies == init + [last];
      if Collect(init).Some? && HasId(last) {
        OneMore(init, last, Collect(init).value);
      }
    }
  }

  lemma OneMore(init: seq<Json>, last: Json, inv: Inventory)
    requires ById(init, inv) && AllHaveIds(init) && IdsDiffer(init) && HasId(last)
    ensures Canon(IdOf(last)) !in inv <==> IdsDiffer(init + [last])
    ensures Canon(IdOf(last)) !in inv ==> ById(init + [last], inv[Canon(IdOf(last)) := last.fields])
  {
    assert last.Object?;
    hide PyEq, Canon, HasId, IdOf;
    var all, k := init + [last], Canon(IdOf(last));
    forall i | 0 <= i < |init| ensures Canon(IdOf(init[i])) == k <==> PyEq(IdOf(init[i]), IdOf(last)) {
      CanonIsPyEq(IdOf(init[i]), IdOf(last));
    }
    assert forall i | 0 <= i < |init| :: all[i] == init[i];
    if k in inv {
      var i :| 0 <= i < |init| && Canon(IdOf(init[i])) == k;
      assert PyEq(IdOf(all[i]), IdOf(all[|init|]));
    } else {
      var more := inv[k := last.fields];
      forall m | m in more ensures exists i | 0 <= i < |all| :: Canon(IdOf(all[i])) == m {
        if m == k {
          assert Canon(IdOf(all[|init|])) == m;
        } else {
          var i :| 0 <= i < |init| && Canon(IdOf(init[i])) == m;
          assert Canon(IdOf(all[i])) == m;
        }
      }
    }
  }

  // ---------------------------------------------------------------- the tables

  const FORWARD: Obj := map[
    "action" := Text("ALLOW"), "protocol" := Text("tcp"), "ip_version" := Text("IPV4"), "connection_state_type" := Text("ALL"),
    "schedule" := Object(map["mode" := Text("ALWAYS")])]
  const RETURN: Obj := map[
    "action" := Text("ALLOW"), "protocol" := Text("tcp"), "ip_version" := Text("IPV4"), "connection_state_type" := Text("RESPOND_ONLY")]

  /** The endpoint in the remote zone, with any port, and the one in the internal zone, with port 443. */
  function Remote(ips: seq<string>): Obj {
    map["ips" := Texts(ips), "zone_id" := Text("6a97a4d7a6bd0ee70a238923"), "matching_target" := Text("IP"),
        "matching_target_type" := Text("SPECIFIC"), "port_matching_type" := Text("ANY")]
  }

  function Internal(vip: string): Obj {
    map["ips" := Texts([vip]), "zone_id" := Text("677f0352a46263726567a989"), "matching_target" := Text("IP"),
        "matching_target_type" := Text("SPECIFIC"), "port_matching_type" := Text("SPECIFIC"), "port" := Text("443")]
  }

  /** Every field of the table is there, and equal. */
  predicate Meets(m: Obj, table: Obj) { forall k | k in table :: k in m && PyEq(m[k], table[k]) }

  predicate Empty(m: Obj, key: string) { key in m && Falsy(m[key]) }
  predicate EmptyOrNone(m: Obj, key: string) { key in m ==> Falsy(m[key]) }

  predicate EndpointMeets(m: Obj, key: string, table: Obj) {
    && key in m && m[key].Object? && Meets(m[key].fields, table)
    && Empty(m[key].fields, "match_opposite_ips") && Empty(m[key].fields, "match_opposite_ports")
    && ("port" !in table ==> EmptyOrNone(m[key].fields, "match_mac"))
  }

  lemma IsMeans(m: Obj, key: string, v: Json)
    ensures Is(m, key, v) <==> key in m && PyEq(m[key], v)
  {
    if key in m { CanonIsPyEq(m[key], v); }
  }

  lemma RemoteMeans(m: Obj, key: string, ips: seq<string>)
    ensures EndpointOk(m, key, ips, REMOTE, None) <==> EndpointMeets(m, key, Remote(ips))
  {
    if key in m && m[key].Object? {
      var e, table := m[key].fields, Remote(ips);
      hide PyEq, Is, Falsy, Texts;
      forall k | k in table ensures Is(e, k, table[k]) <==> k in e && PyEq(e[k], table[k]) { IsMeans(e, k, table[k]); }
      assert Meets(e, table) <==> forall k | k in table :: Is(e, k, table[k]);
      assert "ips" in table && "zone_id" in table && "matching_target" in table && "matching_target_type" in table && "port_matching_type" in table;
    }
  }

  lemma InternalMeans(m: Obj, key: string, vip: string)
    ensures EndpointOk(m, key, [vip], INTERNAL, Some("443")) <==> EndpointMeets(m, key, Internal(vip))
  {
    if key in m && m[key].Object? {
      var e, table := m[key].fields, Internal(vip);
      hide PyEq, Is, Falsy, Texts;
      forall k | k in table ensures Is(e, k, table[k]) <==> k in e && PyEq(e[k], table[k]) { IsMeans(e, k, table[k]); }
      assert Meets(e, table) <==> forall k | k in table :: Is(e, k, table[k]);
      assert "ips" in table && "zone_id" in table && "matching_target" in table && "matching_target_type" in table;
      assert "port_matching_type" in table && "port" in table;
    }
  }

  lemma ForwardMeans(m: Obj)
    ensures Meets(m, FORWARD) <==>
              && Is(m, "action", Text("ALLOW")) && Is(m, "protocol", Text("tcp")) && Is(m, "ip_version", Text("IPV4"))
              && Is(m, "connection_state_type", Text("ALL")) && Is(m, "schedule", Object(map["mode" := Text("ALWAYS")]))
  {
    hide PyEq, Is;
    forall k | k in FORWARD ensures Is(m, k, FORWARD[k]) <==> k in m && PyEq(m[k], FORWARD[k]) { IsMeans(m, k, FORWARD[k]); }
    assert "action" in FORWARD && "protocol" in FORWARD && "ip_version" in FORWARD && "connection_state_type" in FORWARD && "schedule" in FORWARD;
  }

  lemma ReturnMeans(m: Obj)
    ensures Meets(m, RETURN) <==>
              && Is(m, "action", Text("ALLOW")) && Is(m, "protocol", Text("tcp")) && Is(m, "ip_version", Text("IPV4"))
              && Is(m, "connection_state_type", Text("RESPOND_ONLY"))
  {
    hide PyEq, Is;
    forall k | k in RETURN ensures Is(m, k, RETURN[k]) <==> k in m && PyEq(m[k], RETURN[k]) { IsMeans(m, k, RETURN[k]); }
    assert "action" in RETURN && "protocol" in RETURN && "ip_version" in RETURN && "connection_state_type" in RETURN;
  }

  predicate LiterallyTrue(m: Obj, key: string) { key in m && m[key] == Bool(true) }

  /** What the two policies have to do with each other. */
  predicate BelongTogether(forward: Obj, reply: Obj) {
    "_id" in forward && "origin_id" in reply && PyEq(reply["origin_id"], forward["_id"])
  }

  predicate ForwardMeets(forward: Obj, vip: string, sources: seq<string>) {
    && Meets(forward, FORWARD) && LiterallyTrue(forward, "enabled") && LiterallyTrue(forward, "create_allow_respond")
    && Empty(forward, "connection_states") && EmptyOrNone(forward, "match_opposite_protocol")
    && EndpointMeets(forward, "source", Remote(sources)) && EndpointMeets(forward, "destination", Internal(vip))
  }

  predicate ReturnMeets(reply: Obj, vip: string, sources: seq<string>) {
    && Meets(reply, RETURN) && LiterallyTrue(reply, "enabled")
    && "connection_states" in reply && StatesAre(reply["connection_states"]) && EmptyOrNone(reply, "match_opposite_protocol")
    && EndpointMeets(reply, "source", Internal(vip)) && EndpointMeets(reply, "destination", Remote(sources))
  }

  lemma ForwardByTables(forward: Obj, vip: string, sources: seq<string>)
    ensures ForwardMeets(forward, vip, sources) <==>
              && Is(forward, "action", Text("ALLOW")) && Is(forward, "protocol", Text("tcp")) && Is(forward, "ip_version", Text("IPV4"))
              && IsTrue(forward, "enabled") && IsTrue(forward, "create_allow_respond")
              && Is(forward, "connection_state_type", Text("ALL")) && Off(forward, "connection_states")
              && Is(forward, "schedule", Object(map["mode" := Text("ALWAYS")]))
              && EndpointOk(forward, "source", sources, REMOTE, None) && EndpointOk(forward, "destination", [vip], INTERNAL, Some("443"))
              && Unset(forward, "match_opposite_protocol")
  {
    ForwardMeans(forward);
    RemoteMeans(forward, "source", sources);
    InternalMeans(forward, "destination", vip);
    hide Is, PyEq, EndpointOk, EndpointMeets, Meets, Falsy, Remote, Internal;
  }

  lemma ReturnByTables(reply: Obj, vip: string, sources: seq<string>)
    ensures ReturnMeets(reply, vip, sources) <==>
              && Is(reply, "action", Text("ALLOW")) && Is(reply, "protocol", Text("tcp")) && Is(reply, "ip_version", Text("IPV4"))
              && IsTrue(reply, "enabled") && Is(reply, "connection_state_type", Text("RESPOND_ONLY"))
              && "connection_states" in reply && StatesAre(reply["connection_states"])
              && EndpointOk(reply, "source", [vip], INTERNAL, Some("443")) && EndpointOk(reply, "destination", sources, REMOTE, None)
              && Unset(reply, "match_opposite_protocol")
  {
    ReturnMeans(reply);
    RemoteMeans(reply, "destination", sources);
    InternalMeans(reply, "source", vip);
    hide Is, PyEq, EndpointOk, EndpointMeets, Meets, StatesAre, Falsy, Remote, Internal;
  }

  /** A pair passes the check exactly when both policies meet the tables, are literally enabled and
      belong together, and what must be empty is. */
  lemma PairByTables(forward: Obj, reply: Obj, vip: string, sources: seq<string>)
    ensures ValidPair(forward, reply, vip, sources) <==>
              ForwardMeets(forward, vip, sources) && ReturnMeets(reply, vip, sources) && BelongTogether(forward, reply)
  {
    if "_id" in forward { IsMeans(reply, "origin_id", forward["_id"]); }
    hide Is, IsTrue, Off, Unset, PyEq, EndpointOk, StatesAre, ForwardMeets, ReturnMeets;
    ForwardByTables(forward, vip, sources);
    ReturnByTables(reply, vip, sources);
  }

  /** Every field but the two counters is equal. */
  ghost predicate EqualFields(a: Obj, b: Obj) {
    forall k :: k != "hits" && k != "last_hit" ==> (k in a <==> k in b) && (k in a ==> PyEq(a[k], b[k]))
  }

  /** Policies count as the same exactly when all their fields but the two counters are equal. */
  lemma SameExactly(a: Obj, b: Obj)
    ensures Same(a, b) <==> EqualFields(a, b)
  {
    forall k | k in a && k in b ensures Canon(a[k]) == Canon(b[k]) <==> PyEq(a[k], b[k]) {
      CanonIsPyEq(a[k], b[k]);
    }
    if Same(a, b) {
      SameHasEqualFields(a, b);
    }
    if EqualFields(a, b) {
      hide Canon, PyEq;
      assert CanonObj(Semantic(a)).Keys == CanonObj(Semantic(b)).Keys;
      assert CanonObj(Semantic(a)) == CanonObj(Semantic(b));
    }
  }

  lemma SameHasEqualFields(a: Obj, b: Obj)
    requires Same(a, b)
    ensures EqualFields(a, b)
  {
    hide Same, Canon, PyEq;
    forall k | k != "hits" && k != "last_hit" ensures (k in a <==> k in b) && (k in a ==> PyEq(a[k], b[k])) {
      SameAt(a, b, k);
      if k in a { CanonIsPyEq(a[k], b[k]); }
    }
  }
}
