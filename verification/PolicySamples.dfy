/** Two snapshots that pass the policy delta check, and a third, equal to Python, that does not. */
module PolicySamples {
  import opened PolicyDelta
  import opened Wrappers

  const ENDPOINT: Obj := map["zone_id" := Text(REMOTE), "matching_target" := Text("IP"), "matching_target_type" := Text("SPECIFIC"),
    "match_opposite_ips" := Bool(false), "match_opposite_ports" := Bool(false), "port_matching_type" := Text("ANY")]

  function Source(ips: seq<string>): Obj { ENDPOINT["ips" := Texts(ips)] }

  function Target(vip: string): Obj {
    map["ips" := Texts([vip]), "zone_id" := Text(INTERNAL), "matching_target" := Text("IP"), "matching_target_type" := Text("SPECIFIC"),
        "match_opposite_ips" := Bool(false), "match_opposite_ports" := Bool(false), "port_matching_type" := Text("SPECIFIC"),
        "port" := Text("443")]
  }

  function ForwardRest(f: Forward): Obj {
    map["_id" := Text(f.ident), "action" := Text("ALLOW"), "protocol" := Text("tcp"), "ip_version" := Text("IPV4"),
        "create_allow_respond" := Bool(true), "connection_state_type" := Text("ALL"), "connection_states" := Array([]),
        "schedule" := Object(map["mode" := Text("ALWAYS")]), "destination" := Object(Target(f.vip))]
  }

  function ForwardPolicy(f: Forward, ips: seq<string>, enabled: Json): Obj {
    ForwardRest(f)["source" := Object(Source(ips))]["enabled" := enabled]
  }

  function ReturnRest(f: Forward): Obj {
    map["_id" := Text(f.vip), "origin_id" := Text(f.ident), "action" := Text("ALLOW"), "enabled" := Bool(true), "protocol" := Text("tcp"),
        "ip_version" := Text("IPV4"), "connection_state_type" := Text("RESPOND_ONLY"),
        "connection_states" := Array([Text("RELATED"), Text("ESTABLISHED")]), "source" := Object(Target(f.vip))]
  }

  function ReturnPolicy(f: Forward, ips: seq<string>): Obj { ReturnRest(f)["destination" := Object(Source(ips))] }

  lemma SourceOk(m: Obj, key: string, ips: seq<string>)
    requires key in m && m[key] == Object(Source(ips))
    ensures EndpointOk(m, key, ips, REMOTE, None)
  {
    hide Canon, Texts;
  }

  lemma TargetOk(m: Obj, key: string, vip: string)
    requires key in m && m[key] == Object(Target(vip))
    ensures EndpointOk(m, key, [vip], INTERNAL, Some("443"))
  {
    hide Canon, Texts;
  }

  lemma SamplePairValid(f: Forward)
    ensures ValidPair(ForwardPolicy(f, OLD, Bool(true)), ReturnPolicy(f, OLD), f.vip, OLD)
  {
    hide Canon, Texts, EndpointOk, Source, Target;
    var forward, reply := ForwardPolicy(f, OLD, Bool(true)), ReturnPolicy(f, OLD);
    SourceOk(forward, "source", OLD);
    TargetOk(forward, "destination", f.vip);
    TargetOk(reply, "source", f.vip);
    SourceOk(reply, "destination", OLD);
  }

  function Snapshot(ips: seq<string>, enabled: Json): Json {
    var f, g := FORWARDS[0], FORWARDS[1];
    Array([Object(ForwardPolicy(f, ips, enabled)), Object(ReturnPolicy(f, ips)),
           Object(ForwardPolicy(g, ips, Bool(true))), Object(ReturnPolicy(g, ips))])
  }

  function ById(ips: seq<string>, enabled: Json): Inventory {
    var f, g := FORWARDS[0], FORWARDS[1];
    map[Text(f.ident) := ForwardPolicy(f, ips, enabled), Text(f.vip) := ReturnPolicy(f, ips),
        Text(g.ident) := ForwardPolicy(g, ips, Bool(true)), Text(g.vip) := ReturnPolicy(g, ips)]
  }

  lemma Ids()
    ensures var f, g := FORWARDS[0], FORWARDS[1];
            f.ident != f.vip && f.ident != g.ident && f.ident != g.vip && f.vip != g.ident && f.vip != g.vip && g.ident != g.vip
  {
    assert FORWARDS[0].ident[3] != FORWARDS[1].ident[3];
    assert FORWARDS[0].vip[7] != FORWARDS[1].vip[7];
  }

  lemma IdentOf(f: Forward, ips: seq<string>, enabled: Json)
    ensures Ident(Object(ForwardPolicy(f, ips, enabled))) == Some(Text(f.ident))
    ensures Ident(Object(ReturnPolicy(f, ips))) == Some(Text(f.vip))
  {
    hide Source, Target, Texts;
  }

  lemma CollectMore(policies: seq<Json>, policy: Json, inv: Inventory, k: Json)
    requires Collect(policies) == Some(inv) && Ident(policy) == Some(k) && k !in inv
    ensures Collect(policies + [policy]) == Some(inv[k := policy.fields])
  {
    assert (policies + [policy])[..|policies|] == policies;
  }

  lemma SnapshotById(ips: seq<string>, enabled: Json)
    ensures Objects(Snapshot(ips, enabled)) == Some(ById(ips, enabled))
  {
    hide ForwardPolicy, ReturnPolicy, Ident, Collect;
    Ids();
    var f, g := FORWARDS[0], FORWARDS[1];
    var a, b := Object(ForwardPolicy(f, ips, enabled)), Object(ReturnPolicy(f, ips));
    var c, d := Object(ForwardPolicy(g, ips, Bool(true))), Object(ReturnPolicy(g, ips));
    IdentOf(f, ips, enabled);
    IdentOf(g, ips, Bool(true));
    CollectNone();
    var none: Inventory := map[];
    CollectMore([], a, none, Text(f.ident));
    assert [] + [a] == [a];
    var one: Inventory := none[Text(f.ident) := a.fields];
    CollectMore([a], b, one, Text(f.vip));
    assert [a] + [b] == [a, b];
    var two := one[Text(f.vip) := b.fields];
    CollectMore([a, b], c, two, Text(g.ident));
    assert [a, b] + [c] == [a, b, c];
    var three := two[Text(g.ident) := c.fields];
    CollectMore([a, b, c], d, three, Text(g.vip));
    assert [a, b, c] + [d] == [a, b, c, d];
    assert three[Text(g.vip) := d.fields] == ById(ips, enabled);
  }

  lemma CollectNone()
    ensures Collect([]) == Some(map[])
  {
  }

  lemma ReplyOf(f: Forward, g: Forward, ips: seq<string>, enabled: Json)
    ensures !IsReply(ForwardPolicy(f, ips, enabled), g.ident)
    ensures IsReply(ReturnPolicy(f, ips), g.ident) <==> f.ident == g.ident
  {
    hide Source, Target, Texts;
  }

  lemma SamplePrepared()
    ensures Prepared(ById(OLD, Bool(true)))
    ensures IsReturn(ById(OLD, Bool(true)), FORWARDS[0].ident, Text(FORWARDS[0].vip))
    ensures IsReturn(ById(OLD, Bool(true)), FORWARDS[1].ident, Text(FORWARDS[1].vip))
  {
    hide ForwardPolicy, ReturnPolicy, ValidPair, IsReply;
    var inv := ById(OLD, Bool(true));
    Ids();
    forall i | 0 <= i < |FORWARDS| ensures HasPair(inv, FORWARDS[i]) && IsReturn(inv, FORWARDS[i].ident, Text(FORWARDS[i].vip)) {
      var f := FORWARDS[i];
      ReplyOf(FORWARDS[0], f, OLD, Bool(true));
      ReplyOf(FORWARDS[1], f, OLD, Bool(true));
      SamplePairValid(f);
      assert ReplyIds(inv, f.ident) == {Text(f.vip)};
      assert PairReady(inv, f, Text(f.vip));
    }
  }

  lemma Reenabled(m: Obj, enabled: Json)
    requires "enabled" in m && Canon(enabled) == Canon(m["enabled"])
    ensures Same(m["enabled" := enabled], m)
    ensures Canon(Object(m["enabled" := enabled])) == Canon(Object(m))
  {
    var m' := m["enabled" := enabled];
    assert forall k | k in m :: Canon(m'[k]) == Canon(m[k]);
    assert CanonObj(Semantic(m')) == CanonObj(Semantic(m));
    assert Canon(Object(m')).fields == Canon(Object(m)).fields;
  }

  lemma Edited(f: Forward)
    ensures var forward, reply := ForwardPolicy(f, OLD, Bool(true)), ReturnPolicy(f, OLD);
            && "source" in forward && forward["source"].Object? && Replace(forward, "source") == ForwardPolicy(f, NEW, Bool(true))
            && "destination" in reply && reply["destination"].Object? && Replace(reply, "destination") == ReturnPolicy(f, NEW)
  {
    hide Canon, Texts, Target, ForwardRest, ReturnRest;
    assert Source(OLD)["ips" := Texts(NEW)] == Source(NEW);
  }

  lemma Equal(f: Forward, ips: seq<string>, enabled: Json)
    requires Canon(enabled) == Canon(Bool(true))
    ensures Same(ForwardPolicy(f, ips, enabled), ForwardPolicy(f, ips, Bool(true)))
    ensures Canon(Object(ForwardPolicy(f, ips, enabled))) == Canon(Object(ForwardPolicy(f, ips, Bool(true))))
  {
    hide Canon, Same, Source, ForwardRest;
    var m := ForwardPolicy(f, ips, Bool(true));
    Reenabled(m, enabled);
    assert m["enabled" := enabled] == ForwardPolicy(f, ips, enabled);
  }

  lemma SampleDelta(enabled: Json)
    requires Canon(enabled) == Canon(Bool(true))
    ensures Prepared(ById(OLD, Bool(true))) && OnlyDelta(ById(OLD, Bool(true)), ById(NEW, enabled))
  {
    hide ForwardPolicy, ReturnPolicy, Prepared, Canon, Expected, Same, ById;
    var before, after := ById(OLD, Bool(true)), ById(NEW, enabled);
    SampleAt(OLD, Bool(true));
    SampleAt(NEW, enabled);
    Equal(FORWARDS[0], NEW, enabled);
    SampleExpected(0);
    SampleExpected(1);
    SameSelf(ForwardPolicy(FORWARDS[1], NEW, Bool(true)));
    SameSelf(ReturnPolicy(FORWARDS[0], NEW));
    SameSelf(ReturnPolicy(FORWARDS[1], NEW));
    assert forall k | k in before :: Same(after[k], Expected(before, k));
  }

  lemma SampleAt(ips: seq<string>, enabled: Json)
    ensures var f, g, inv := FORWARDS[0], FORWARDS[1], ById(ips, enabled);
            && inv.Keys == {Text(f.ident), Text(f.vip), Text(g.ident), Text(g.vip)}
            && inv[Text(f.ident)] == ForwardPolicy(f, ips, enabled) && inv[Text(f.vip)] == ReturnPolicy(f, ips)
            && inv[Text(g.ident)] == ForwardPolicy(g, ips, Bool(true)) && inv[Text(g.vip)] == ReturnPolicy(g, ips)
  {
    hide ForwardPolicy, ReturnPolicy;
    Ids();
  }

  lemma SameSelf(m: Obj)
    ensures Same(m, m)
  {
  }

  lemma SampleExpected(i: nat)
    requires i < |FORWARDS|
    ensures var inv, f := ById(OLD, Bool(true)), FORWARDS[i];
            && Prepared(inv) && Text(f.ident) in inv && Text(f.vip) in inv
            && Expected(inv, Text(f.ident)) == ForwardPolicy(f, NEW, Bool(true))
            && Expected(inv, Text(f.vip)) == ReturnPolicy(f, NEW)
  {
    hide ForwardPolicy, ReturnPolicy, Prepared, Canon, Same, Replace, ValidPair, IsReply;
    var inv, f := ById(OLD, Bool(true)), FORWARDS[i];
    SamplePrepared();
    Ids();
    Edited(f);
    SamplePairValid(f);
    assert PairReady(inv, f, Text(f.vip));
    ExpectedPair(inv, i, Text(f.vip));
  }

  /** The edit is accepted, and with `1` for `true` it is not, although the two snapshots are equal. */
  lemma EqualIsNotEnough()
    ensures Accepted(Snapshot(OLD, Bool(true)), Snapshot(NEW, Bool(true)))
    ensures Canon(Snapshot(NEW, Number(1.0))) == Canon(Snapshot(NEW, Bool(true)))
    ensures Prepared(ById(OLD, Bool(true))) && OnlyDelta(ById(OLD, Bool(true)), ById(NEW, Number(1.0)))
    ensures !Accepted(Snapshot(OLD, Bool(true)), Snapshot(NEW, Number(1.0)))
  {
    hide ForwardPolicy, ReturnPolicy, Prepared, Objects, Snapshot, ById, OnlyDelta, IsReturn;
    SampleDelta(Bool(true));
    assert Canon(Number(1.0)) == Canon(Bool(true));
    SampleDelta(Number(1.0));
    SnapshotById(OLD, Bool(true));
    SnapshotById(NEW, Bool(true));
    SnapshotById(NEW, Number(1.0));
    SampleEqual();
    SampleEnabled(Bool(true));
    SampleEnabled(Number(1.0));
  }

  lemma SampleEnabled(enabled: Json)
    ensures ById(NEW, enabled).Keys == ById(OLD, Bool(true)).Keys
    ensures StillEnabled(ById(OLD, Bool(true)), ById(NEW, enabled)) <==> enabled == Bool(true)
  {
    hide ForwardPolicy, ReturnPolicy, Prepared, Canon, IsReturn;
    var before, after := ById(OLD, Bool(true)), ById(NEW, enabled);
    Ids();
    SamplePrepared();
    SampleFlags(FORWARDS[0], enabled);
    SampleFlags(FORWARDS[1], Bool(true));
    OneReturn(before, FORWARDS[0].ident, Text(FORWARDS[0].vip));
    OneReturn(before, FORWARDS[1].ident, Text(FORWARDS[1].vip));
    assert Enabled(after[Text(FORWARDS[0].ident)], after[Text(FORWARDS[0].vip)]) <==> enabled == Bool(true);
  }

  lemma OneReturn(inv: Inventory, ident: string, k: Json)
    requires IsReturn(inv, ident, k)
    ensures forall k' :: IsReturn(inv, ident, k') <==> k' == k
  {
    assert k in ReplyIds(inv, ident);
    assert forall k' :: IsReturn(inv, ident, k') ==> k' in ReplyIds(inv, ident);
  }

  lemma SampleFlags(f: Forward, enabled: Json)
    ensures Enabled(ForwardPolicy(f, NEW, enabled), ReturnPolicy(f, NEW)) <==> enabled == Bool(true)
  {
    hide Source, Target, Texts;
  }

  lemma SampleEqual()
    ensures Canon(Snapshot(NEW, Number(1.0))) == Canon(Snapshot(NEW, Bool(true)))
  {
    hide ForwardPolicy, ReturnPolicy;
    Equal(FORWARDS[0], NEW, Number(1.0));
    assert Canon(Snapshot(NEW, Number(1.0))).items == Canon(Snapshot(NEW, Bool(true))).items;
  }
}
