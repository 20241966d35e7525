/** The table of admin roles by path, and why its order does not matter: what the first match demands is what
    the longest match demands. The table is written in alphabetical order, each entry with its place in the
    source's table; the common prefix "/api/v1" of all paths is left out. */
module AuthorizationTable {
  import opened Authorization
  import opened Words

  datatype Rule = Rule(place: nat, role: string, roleSuffix: string)

  const ROWS_0: seq<Word<Rule>> := [
    Word(".1/report/", 9, Rule(28, "REPORTS", "")),
    Word(".1/reports", 0, Rule(27, "REPORTS", "")),
    Word("/admin_api_audit_log/", 20, Rule(38, "ADMIN_API_AUDIT_LOG", "")),
    Word("/admin_api_audit_logs", 2, Rule(37, "ADMIN_API_AUDIT_LOG", "")),
    Word("/auth_log/", 9, Rule(4, "NODES", "")),
    Word("/auth_logs", 1, Rule(5, "NODES", ""))]

  const ROWS_1: seq<Word<Rule>> := [
    Word("/class/", 6, Rule(6, "SECURITY_EVENTS", "")),
    Word("/classes", 2, Rule(7, "SECURITY_EVENTS", "")),
    Word("/config/admin_role/", 18, Rule(39, "ADMIN_ROLES", "")),
    Word("/config/admin_roles", 8, Rule(40, "ADMIN_ROLES", "")),
    Word("/config/base/", 12, Rule(41, "CONFIGURATION_MAIN", "")),
    Word("/config/bases", 9, Rule(42, "CONFIGURATION_MAIN", ""))]

  const ROWS_2: seq<Word<Rule>> := [
    Word("/config/billing_tier/", 20, Rule(43, "BILLING_TIER", "")),
    Word("/config/billing_tiers", 8, Rule(44, "BILLING_TIER", "")),
    Word("/config/certificate/", 19, Rule(45, "CONFIGURATION_MAIN", "")),
    Word("/config/certificates", 9, Rule(46, "CONFIGURATION_MAIN", "")),
    Word("/config/checkup", 9, Rule(47, ALLOW_ANY, "")),
    Word("/config/cluster_status", 9, Rule(48, "SERVICES", ""))]

  const ROWS_3: seq<Word<Rule>> := [
    Word("/config/connection_profile/", 26, Rule(49, "CONNECTION_PROFILES", "")),
    Word("/config/connection_profiles", 8, Rule(50, "CONNECTION_PROFILES", "")),
    Word("/config/domain/", 14, Rule(55, "DOMAIN", "")),
    Word("/config/domains", 8, Rule(56, "DOMAIN", "")),
    Word("/config/event_logger/", 20, Rule(51, "EVENT_LOGGERS", "")),
    Word("/config/event_loggers", 8, Rule(52, "EVENT_LOGGERS", ""))]

  const ROWS_4: seq<Word<Rule>> := [
    Word("/config/fingerbank_setting/", 26, Rule(57, "FINGERBANK", "")),
    Word("/config/fingerbank_settings", 10, Rule(58, "FINGERBANK", "")),
    Word("/config/firewall/", 16, Rule(59, "FIREWALL_SSO", "")),
    Word("/config/firewalls", 9, Rule(60, "FIREWALL_SSO", "")),
    Word("/config/floating_device/", 23, Rule(61, "FLOATING_DEVICES", "")),
    Word("/config/floating_devices", 8, Rule(62, "FLOATING_DEVICES", ""))]

  const ROWS_5: seq<Word<Rule>> := [
    Word("/config/interface/", 17, Rule(63, "INTERFACES", "")),
    Word("/config/interfaces", 8, Rule(64, "INTERFACES", "")),
    Word("/config/l2_network/", 18, Rule(65, "INTERFACES", "")),
    Word("/config/l2_networks", 8, Rule(66, "INTERFACES", "")),
    Word("/config/maintenance_task/", 24, Rule(67, "PFCRON", "")),
    Word("/config/maintenance_tasks", 8, Rule(68, "PFCRON", ""))]

  const ROWS_6: seq<Word<Rule>> := [
    Word("/config/pki/", 11, Rule(72, "PKI", "")),
    Word("/config/pki_provider/", 20, Rule(69, "PKI_PROVIDER", "")),
    Word("/config/pki_providers", 9, Rule(70, "PKI_PROVIDER", "")),
    Word("/config/portal_module/", 21, Rule(71, "PORTAL_MODULE", "")),
    Word("/config/portal_modules", 9, Rule(73, "PORTAL_MODULE", "")),
    Word("/config/provisioning", 20, Rule(74, "PROVISIONING", ""))]

  const ROWS_7: seq<Word<Rule>> := [
    Word("/config/provisionings/", 8, Rule(75, "PROVISIONING", "")),
    Word("/config/realm/", 13, Rule(76, "REALM", "")),
    Word("/config/realms", 9, Rule(77, "REALM", "")),
    Word("/config/role/", 12, Rule(78, "USERS_ROLES", "")),
    Word("/config/roles", 10, Rule(79, "USERS_ROLES", ""))]

  const ROWS_8: seq<Word<Rule>> := [
    Word("/config/routed_network/", 22, Rule(80, "INTERFACES", "")),
    Word("/config/routed_networks", 8, Rule(81, "INTERFACES", "")),
    Word("/config/scan/", 12, Rule(82, "SCAN", "")),
    Word("/config/scans", 9, Rule(83, "SCAN", "")),
    Word("/config/security_event/", 22, Rule(84, "SECURITY_EVENTS", ""))]

  const ROWS_9: seq<Word<Rule>> := [
    Word("/config/security_events", 10, Rule(85, "SECURITY_EVENTS", "")),
    Word("/config/self_service/", 20, Rule(53, "SELF_SERVICE", "")),
    Word("/config/self_services", 9, Rule(54, "SELF_SERVICE", "")),
    Word("/config/source/", 14, Rule(86, "USERS_SOURCES", "")),
    Word("/config/sources", 9, Rule(87, "USERS_SOURCES", ""))]

  const ROWS_10: seq<Word<Rule>> := [
    Word("/config/switch/", 14, Rule(88, "SWITCHES", "")),
    Word("/config/switch_group/", 20, Rule(89, "SWITCHES", "")),
    Word("/config/switch_groups", 14, Rule(90, "SWITCHES", "")),
    Word("/config/switches", 9, Rule(91, "SWITCHES", "")),
    Word("/config/syslog_forwarder/", 24, Rule(92, "SYSLOG", ""))]

  const ROWS_11: seq<Word<Rule>> := [
    Word("/config/syslog_forwarders", 15, Rule(93, "SYSLOG", "")),
    Word("/config/syslog_parser/", 21, Rule(94, "PFDETECT", "")),
    Word("/config/syslog_parsers", 8, Rule(95, "PFDETECT", "")),
    Word("/config/traffic_shaping_policies", 29, Rule(96, "TRAFFIC_SHAPING", ""))]

  const ROWS_12: seq<Word<Rule>> := [
    Word("/config/traffic_shaping_policy/", 2, Rule(97, "TRAFFIC_SHAPING", "")),
    Word("/current_user", 1, Rule(0, ALLOW_ANY, "")),
    Word("/dhcp_option82/", 14, Rule(33, "DHCP_OPTION_82", "")),
    Word("/dhcp_option82s", 2, Rule(32, "DHCP_OPTION_82", "")),
    Word("/dns_audit_log/", 14, Rule(36, "DNS_LOG", "")),
    Word("/dns_audit_logs", 2, Rule(35, "DNS_LOG", "")),
    Word("/dynamic_report/", 15, Rule(30, "REPORTS", ""))]

  const ROWS_13: seq<Word<Rule>> := [
    Word("/dynamic_reports", 1, Rule(29, "REPORTS", "")),
    Word("/fingerbank", 1, Rule(23, "FINGERBANK", "")),
    Word("/ip4log/", 7, Rule(8, "NODES", "")),
    Word("/ip4logs", 3, Rule(9, "NODES", "")),
    Word("/ip6log/", 7, Rule(10, "NODES", "")),
    Word("/ip6logs", 1, Rule(11, "NODES", ""))]

  const ROWS_14: seq<Word<Rule>> := [
    Word("/locationlog/", 12, Rule(12, "NODES", "")),
    Word("/locationlogs", 1, Rule(13, "NODES", "")),
    Word("/node/", 5, Rule(15, "NODES", "")),
    Word("/node_categories", 13, Rule(17, "NODES", "")),
    Word("/node_category/", 5, Rule(18, "NODES", "")),
    Word("/nodes", 6, Rule(16, "NODES", ""))]

  const ROWS_15: seq<Word<Rule>> := [
    Word("/nodes/network_graph", 1, Rule(14, "NODES", "_READ")),
    Word("/preference/", 11, Rule(2, ALLOW_ANY, "")),
    Word("/preferences", 1, Rule(3, ALLOW_ANY, "")),
    Word("/radius_attributes", 9, Rule(1, ALLOW_ANY, "")),
    Word("/radius_audit_log/", 17, Rule(31, "RADIUS_LOG", "")),
    Word("/radius_audit_logs", 2, Rule(34, "RADIUS_LOG", "")),
    Word("/reports/", 1, Rule(26, "REPORTS", ""))]

  const ROWS_16: seq<Word<Rule>> := [
    Word("/security_event/", 15, Rule(19, "SECURITY_EVENTS", "")),
    Word("/security_events", 3, Rule(20, "SECURITY_EVENTS", "")),
    Word("/service/", 8, Rule(24, "SERVICES", "")),
    Word("/services", 1, Rule(25, "SERVICES", "")),
    Word("/user/", 5, Rule(21, "USERS", "")),
    Word("/users", 0, Rule(22, "USERS", ""))]

  // ---------- the table in the source's order ----------

  const API_PREFIX := "/api/v1"

  function AsMapping(w: Word<Rule>): Mapping
  {
    Mapping(API_PREFIX + w.text, w.entry.role, w.entry.roleSuffix)
  }

  /** The row with the given place; without one, a mapping that matches nothing. */
  function Placed(rows: seq<Word<Rule>>, place: nat): (m: Mapping)
    ensures m.role == "" || exists k :: 0 <= k < |rows| && rows[k].entry.place == place && m == AsMapping(rows[k])
  {
    if rows == [] then Mapping("", "", "")
    else if rows[0].entry.place == place then AsMapping(rows[0])
    else
      var m := Placed(rows[1..], place);
      assert forall k :: 0 <= k < |rows[1..]| ==> rows[1..][k] == rows[k + 1];
      m
  }

  function SourceOrder(rows: seq<Word<Rule>>): (table: seq<Mapping>)
  {
    seq(|rows|, place requires 0 <= place < |rows| => Placed(rows, place))
  }

  /** Both demand the same, or the second comes first in the source's table. */
  predicate Harmless(r: Word<Rule>, s: Word<Rule>)
  {
    (r.entry.role == s.entry.role && r.entry.roleSuffix == s.entry.roleSuffix) || s.entry.place < r.entry.place
  }

  lemma CommonPrefix(p: string, a: string, b: string)
    requires p + a <= p + b
    ensures a <= b
  {
    assert (p + b)[..|p| + |a|] == p + a;
    assert (p + b)[|p|..|p| + |a|] == a == b[..|a|];
  }

  /** Rows whose only prefix-related neighbours are harmless agree on every path. */
  lemma LinkedRowsAgree(rows: seq<Word<Rule>>, path: string)
    requires Linked(rows, Harmless)
    ensures Agree(SourceOrder(rows), path)
  {
    var table := SourceOrder(rows);
    forall i: nat, j: nat | IsFirst(table, path, i) && IsLongest(table, path, j)
      ensures NeedOf(table[i]) == NeedOf(table[j])
    {
      var k := MatchingRow(rows, path, i);
      var l := MatchingRow(rows, path, j);
      MatchesAgree(rows, path, k, l);
    }
  }

  lemma MatchingRow(rows: seq<Word<Rule>>, path: string, i: nat) returns (k: nat)
    requires i < |rows| && Hits(SourceOrder(rows)[i], path)
    ensures k < |rows| && rows[k].entry.place == i && SourceOrder(rows)[i] == AsMapping(rows[k])
  {
    k :| k < |rows| && rows[k].entry.place == i && SourceOrder(rows)[i] == AsMapping(rows[k]);
  }

  /** Of two rows that match a path, an earlier and shorter one demands what the other demands. */
  lemma MatchesAgree(rows: seq<Word<Rule>>, path: string, k: nat, l: nat)
    requires Linked(rows, Harmless) && k < |rows| && l < |rows| && rows[k].entry.place <= rows[l].entry.place
    requires API_PREFIX + rows[k].text <= path && API_PREFIX + rows[l].text <= path && |rows[k].text| <= |rows[l].text|
    ensures NeedOf(AsMapping(rows[k])) == NeedOf(AsMapping(rows[l]))
  {
    ShorterPrefix(API_PREFIX + rows[k].text, API_PREFIX + rows[l].text, path);
    CommonPrefix(API_PREFIX, rows[k].text, rows[l].text);
    if k != l {
      OnlyNeighbourBegins(rows, Harmless, k, l);
    }
  }

  lemma ShorterPrefix(a: string, b: string, path: string)
    requires a <= path && b <= path && |a| <= |b|
    ensures a <= b
  {
  }

  // ---------- the rows are linked ----------

  lemma Rows0()
    ensures Linked(ROWS_0, Harmless) && Links(ROWS_0[5], ROWS_1[0], Harmless)
  {
    assert Rising(ROWS_0, 4);
    assert Rising(ROWS_0, 3);
    assert Rising(ROWS_0, 2);
    assert Rising(ROWS_0, 1);
    RisingLinks(ROWS_0, Harmless);
  }

  lemma Rows1()
    ensures Linked(ROWS_1, Harmless) && Links(ROWS_1[5], ROWS_2[0], Harmless)
  {
    assert Rising(ROWS_1, 4);
    assert Rising(ROWS_1, 3);
    assert Rising(ROWS_1, 2);
    assert Rising(ROWS_1, 1);
    RisingLinks(ROWS_1, Harmless);
  }

  lemma Rows2()
    ensures Linked(ROWS_2, Harmless) && Links(ROWS_2[5], ROWS_3[0], Harmless)
  {
    assert Rising(ROWS_2, 4);
    assert Rising(ROWS_2, 3);
    assert Rising(ROWS_2, 2);
    assert Rising(ROWS_2, 1);
    RisingLinks(ROWS_2, Harmless);
  }

  lemma Rows3()
    ensures Linked(ROWS_3, Harmless) && Links(ROWS_3[5], ROWS_4[0], Harmless)
  {
    assert Rising(ROWS_3, 4);
    assert Rising(ROWS_3, 3);
    assert Rising(ROWS_3, 2);
    assert Rising(ROWS_3, 1);
    RisingLinks(ROWS_3, Harmless);
  }

  lemma Rows4()
    ensures Linked(ROWS_4, Harmless) && Links(ROWS_4[5], ROWS_5[0], Harmless)
  {
    assert Rising(ROWS_4, 4);
    assert Rising(ROWS_4, 3);
    assert Rising(ROWS_4, 2);
    assert Rising(ROWS_4, 1);
    RisingLinks(ROWS_4, Harmless);
  }

  lemma Rows5()
    ensures Linked(ROWS_5, Harmless) && Links(ROWS_5[5], ROWS_6[0], Harmless)
  {
    assert Rising(ROWS_5, 4);
    assert Rising(ROWS_5, 3);
    assert Rising(ROWS_5, 2);
    assert Rising(ROWS_5, 1);
    RisingLinks(ROWS_5, Harmless);
  }

  lemma Rows6()
    ensures Linked(ROWS_6, Harmless) && Links(ROWS_6[5], ROWS_7[0], Harmless)
  {
    assert Rising(ROWS_6, 4);
    assert Rising(ROWS_6, 3);
    assert Rising(ROWS_6, 2);
    assert Rising(ROWS_6, 1);
    RisingLinks(ROWS_6, Harmless);
  }

  lemma Rows7()
    ensures Linked(ROWS_7, Harmless) && Links(ROWS_7[4], ROWS_8[0], Harmless)
  {
    assert Rising(ROWS_7, 4);
    assert Rising(ROWS_7, 3);
    assert Rising(ROWS_7, 2);
    assert Rising(ROWS_7, 1);
    RisingLinks(ROWS_7, Harmless);
  }

  lemma Rows8()
    ensures Linked(ROWS_8, Harmless) && Links(ROWS_8[4], ROWS_9[0], Harmless)
  {
    assert Rising(ROWS_8, 4);
    assert Rising(ROWS_8, 3);
    assert Rising(ROWS_8, 2);
    assert Rising(ROWS_8, 1);
    RisingLinks(ROWS_8, Harmless);
  }

  lemma Rows9()
    ensures Linked(ROWS_9, Harmless) && Links(ROWS_9[4], ROWS_10[0], Harmless)
  {
    assert Rising(ROWS_9, 4);
    assert Rising(ROWS_9, 3);
    assert Rising(ROWS_9, 2);
    assert Rising(ROWS_9, 1);
    RisingLinks(ROWS_9, Harmless);
  }

  lemma Rows10()
    ensures Linked(ROWS_10, Harmless) && Links(ROWS_10[4], ROWS_11[0], Harmless)
  {
    assert Rising(ROWS_10, 4);
    assert Rising(ROWS_10, 3);
    assert Rising(ROWS_10, 2);
    assert Rising(ROWS_10, 1);
    RisingLinks(ROWS_10, Harmless);
  }

  lemma Rows11()
    ensures Linked(ROWS_11, Harmless) && Links(ROWS_11[3], ROWS_12[0], Harmless)
  {
    assert Rising(ROWS_11, 4);
    assert Rising(ROWS_11, 3);
    assert Rising(ROWS_11, 2);
    assert Rising(ROWS_11, 1);
    RisingLinks(ROWS_11, Harmless);
  }

  lemma Rows12()
    ensures Linked(ROWS_12, Harmless) && Links(ROWS_12[6], ROWS_13[0], Harmless)
  {
    assert Rising(ROWS_12, 4);
    assert Rising(ROWS_12, 3);
    assert Rising(ROWS_12, 2);
    assert Rising(ROWS_12, 1);
    RisingLinks(ROWS_12, Harmless);
  }

  lemma Rows13()
    ensures Linked(ROWS_13, Harmless) && Links(ROWS_13[5], ROWS_14[0], Harmless)
  {
    assert Rising(ROWS_13, 4);
    assert Rising(ROWS_13, 3);
    assert Rising(ROWS_13, 2);
    assert Rising(ROWS_13, 1);
    RisingLinks(ROWS_13, Harmless);
  }

  lemma Rows14()
    ensures Linked(ROWS_14, Harmless) && Links(ROWS_14[5], ROWS_15[0], Harmless)
  {
    assert Rising(ROWS_14, 4);
    assert Rising(ROWS_14, 3);
    assert Rising(ROWS_14, 2);
    assert Rising(ROWS_14, 1);
    RisingLinks(ROWS_14, Harmless);
  }

  lemma Rows15()
    ensures Linked(ROWS_15, Harmless) && Links(ROWS_15[6], ROWS_16[0], Harmless)
  {
    assert Rising(ROWS_15, 4);
    assert Rising(ROWS_15, 3);
    assert Rising(ROWS_15, 2);
    assert Rising(ROWS_15, 1);
    RisingLinks(ROWS_15, Harmless);
  }

  lemma Rows16()
    ensures Linked(ROWS_16, Harmless)
  {
    assert Rising(ROWS_16, 4);
    assert Rising(ROWS_16, 3);
    assert Rising(ROWS_16, 2);
    assert Rising(ROWS_16, 1);
    RisingLinks(ROWS_16, Harmless);
  }

  const LATER_ROWS: seq<Word<Rule>> :=
    ROWS_8 + (ROWS_9 + (ROWS_10 + (ROWS_11 + (ROWS_12 + (ROWS_13 + (ROWS_14 + (ROWS_15 + (ROWS_16))))))))

  const ROWS: seq<Word<Rule>> :=
    ROWS_0 + (ROWS_1 + (ROWS_2 + (ROWS_3 + (ROWS_4 + (ROWS_5 + (ROWS_6 + (ROWS_7 + (LATER_ROWS))))))))

  const PATH_ADMIN_ROLES: seq<Mapping> := SourceOrder(ROWS)

  lemma LaterRowsAreLinked()
    ensures LATER_ROWS != [] && LATER_ROWS[0] == ROWS_8[0] && Linked(LATER_ROWS, Harmless)
  {
    Rows16();
    var rows := ROWS_16;
    Rows15();
    LinkedConcat(ROWS_15, rows, Harmless);
    rows := ROWS_15 + rows;
    Rows14();
    LinkedConcat(ROWS_14, rows, Harmless);
    rows := ROWS_14 + rows;
    Rows13();
    LinkedConcat(ROWS_13, rows, Harmless);
    rows := ROWS_13 + rows;
    Rows12();
    LinkedConcat(ROWS_12, rows, Harmless);
    rows := ROWS_12 + rows;
    Rows11();
    LinkedConcat(ROWS_11, rows, Harmless);
    rows := ROWS_11 + rows;
    Rows10();
    LinkedConcat(ROWS_10, rows, Harmless);
    rows := ROWS_10 + rows;
    Rows9();
    LinkedConcat(ROWS_9, rows, Harmless);
    rows := ROWS_9 + rows;
    Rows8();
    LinkedConcat(ROWS_8, rows, Harmless);
    rows := ROWS_8 + rows;
  }

  lemma RowsAreLinked()
    ensures Linked(ROWS, Harmless)
  {
    LaterRowsAreLinked();
    var rows := LATER_ROWS;
    Rows7();
    LinkedConcat(ROWS_7, rows, Harmless);
    rows := ROWS_7 + rows;
    Rows6();
    LinkedConcat(ROWS_6, rows, Harmless);
    rows := ROWS_6 + rows;
    Rows5();
    LinkedConcat(ROWS_5, rows, Harmless);
    rows := ROWS_5 + rows;
    Rows4();
    LinkedConcat(ROWS_4, rows, Harmless);
    rows := ROWS_4 + rows;
    Rows3();
    LinkedConcat(ROWS_3, rows, Harmless);
    rows := ROWS_3 + rows;
    Rows2();
    LinkedConcat(ROWS_2, rows, Harmless);
    rows := ROWS_2 + rows;
    Rows1();
    LinkedConcat(ROWS_1, rows, Harmless);
    rows := ROWS_1 + rows;
    Rows0();
    LinkedConcat(ROWS_0, rows, Harmless);
    rows := ROWS_0 + rows;
  }

  /** First match and longest match make the same demand on every path. */
  lemma TableAgrees(path: string)
    ensures Agree(PATH_ADMIN_ROLES, path)
  {
    RowsAreLinked();
    LinkedRowsAgree(ROWS, path);
  }

  /** What a path needs is what its longest match says, or SYSTEM when nothing matches it. */
  lemma NeedIsLongestMatch(path: string)
    ensures var need := FirstNeed(PATH_ADMIN_ROLES, path);
            || (exists j: nat :: IsLongest(PATH_ADMIN_ROLES, path, j) && need == NeedOf(PATH_ADMIN_ROLES[j]))
            || (need == SYSTEM_NEED && forall m :: m in PATH_ADMIN_ROLES ==> !Hits(m, path))
  {
    TableAgrees(path);
    AgreementDecides(PATH_ADMIN_ROLES, path);
  }
}
