/** The node role classifier shared by the per-node and per-role commands
    (cmd/capacity/node.go and cmd/capacity/noderole.go). */
module Roles {
  import opened Strings
  import opened Inventory

  const RolePrefix := "node-role.kubernetes.io/"
  const LegacyRoleLabel := "kubernetes.io/role"
  /** The role of a node that declares none. */
  const NoRole := "<none>"

  predicate HasPrefix(s: string, prefix: string) {
    |prefix| <= |s| && s[..|prefix|] == prefix
  }

  /** The role one label declares, read as the classifier's switch reads it:
      a key under the role prefix names the role after the prefix (nothing
      when that part is empty; the value is ignored), any other key names
      nothing unless it is the legacy key with a non-empty value. */
  function LabelRole(l: Label): (roles: set<string>)
    ensures forall r :: r in roles ==> r != ""
  {
    if HasPrefix(l.key, RolePrefix) then
      (if |l.key| > |RolePrefix| then {l.key[|RolePrefix|..]} else {})
    else if l.key == LegacyRoleLabel && l.value != "" then {l.value}
    else {}
  }

  /** Reference reading of the labels: role `r` is declared by a key
      `node-role.kubernetes.io/<r>` with a non-empty `<r>`, whatever its value,
      or by a non-empty value `r` of the legacy key `kubernetes.io/role`. */
  predicate Declares(labels: seq<Label>, r: string) {
    || (r != "" && exists i :: 0 <= i < |labels| && labels[i].key == RolePrefix + r)
    || (r != "" && exists i :: 0 <= i < |labels| && labels[i].key == LegacyRoleLabel && labels[i].value == r)
  }

  /** Every role some label declares, over all labels. */
  function DeclaredRoles(labels: seq<Label>): set<string> {
    if |labels| == 0 then {} else DeclaredRoles(labels[..|labels| - 1]) + LabelRole(labels[|labels| - 1])
  }

  /** The role set of a node: every role its labels declare, or exactly
      `<none>` when they declare none (see `RoleSetIsDeclaredRoles`). */
  function RoleSet(labels: seq<Label>): (roles: set<string>)
    ensures roles != {}
  {
    var found := DeclaredRoles(labels);
    if found == {} then {NoRole} else found
  }

  /** One label's classification against the reference reading. */
  lemma LabelRoleMeaning(l: Label, r: string)
    ensures r in LabelRole(l) <==>
      (r != "" && l.key == RolePrefix + r) || (r != "" && l.key == LegacyRoleLabel && l.value == r)
  {
    var k := RolePrefix + r;
    assert k[..|RolePrefix|] == RolePrefix;
    assert k[|RolePrefix|..] == r;
    if HasPrefix(l.key, RolePrefix) && |l.key| > |RolePrefix| {
      assert l.key == l.key[..|RolePrefix|] + l.key[|RolePrefix|..];
    }
    assert !HasPrefix(LegacyRoleLabel, RolePrefix);
  }

  lemma {:induction false} DeclaredRolesMeaning(labels: seq<Label>, r: string)
    ensures r in DeclaredRoles(labels) <==> Declares(labels, r)
    decreases |labels|
  {
    if |labels| > 0 {
      var init, l := labels[..|labels| - 1], labels[|labels| - 1];
      DeclaredRolesMeaning(init, r);
      LabelRoleMeaning(l, r);
      if Declares(labels, r) {
        var i :| 0 <= i < |labels| && (labels[i].key == RolePrefix + r || (labels[i].key == LegacyRoleLabel && labels[i].value == r));
        if i < |init| {
          assert init[i] == labels[i];
        }
      }
      if Declares(init, r) {
        if exists i :: 0 <= i < |init| && init[i].key == RolePrefix + r {
          var i :| 0 <= i < |init| && init[i].key == RolePrefix + r;
          assert labels[i] == init[i];
        } else {
          var i :| 0 <= i < |init| && init[i].key == LegacyRoleLabel && init[i].value == r;
          assert labels[i] == init[i];
        }
      }
    }
  }

  /** The role set holds exactly the declared roles, and `<none>` stands in
      only when nothing is declared. Other labels are ignored. */
  lemma RoleSetIsDeclaredRoles(labels: seq<Label>)
    ensures (exists r :: Declares(labels, r)) ==> forall r :: r in RoleSet(labels) <==> Declares(labels, r)
    ensures (forall r :: !Declares(labels, r)) ==> RoleSet(labels) == {NoRole}
  {
    forall r ensures r in DeclaredRoles(labels) <==> Declares(labels, r) {
      DeclaredRolesMeaning(labels, r);
    }
  }

  /** The role list of a node: its role set in increasing order
      (`roles.List()` in the source). */
  function RoleList(labels: seq<Label>): (roles: seq<string>)
    ensures |roles| >= 1 && Sorted(roles) && Distinct(roles)
    ensures forall r :: r in roles <==> r in RoleSet(labels)
  {
    SortedElements(RoleSet(labels))
  }

  /** The key a node is filed under when rows are grouped by role: its role
      list joined with ",". */
  function RoleSignature(labels: seq<Label>): string {
    Join(RoleList(labels), ",")
  }

  /** Role names never contain ',' when they come from valid label keys and
      values; under that condition two nodes share a signature exactly when
      they have the same role set. */
  lemma SignatureIdentifiesRoles(a: seq<Label>, b: seq<Label>)
    requires forall r :: r in RoleSet(a) ==> ',' !in r
    requires forall r :: r in RoleSet(b) ==> ',' !in r
    ensures RoleSignature(a) == RoleSignature(b) <==> RoleSet(a) == RoleSet(b)
  {
    JoinedElementsInjective(RoleSet(a), RoleSet(b));
  }

  lemma JoinedElementsInjective(sa: set<string>, sb: set<string>)
    requires forall r :: r in sa ==> ',' !in r
    requires forall r :: r in sb ==> ',' !in r
    requires sa != {} && sb != {}
    ensures Join(SortedElements(sa), ",") == Join(SortedElements(sb), ",") ==> sa == sb
  {
    var la, lb := SortedElements(sa), SortedElements(sb);
    if Join(la, ",") == Join(lb, ",") {
      assert forall i :: 0 <= i < |la| ==> ',' !in la[i] by {
        forall i | 0 <= i < |la| ensures ',' !in la[i] {
          assert la[i] in la;
        }
      }
      assert forall i :: 0 <= i < |lb| ==> ',' !in lb[i] by {
        forall i | 0 <= i < |lb| ensures ',' !in lb[i] {
          assert lb[i] in lb;
        }
      }
      JoinInjective(la, lb, ',');
      assert forall r :: r in sa <==> r in sb by {
        forall r ensures r in sa <==> r in sb {
          assert r in la <==> r in sa;
          assert r in lb <==> r in sb;
        }
      }
    }
  }

  /** A node labelled with several roles belongs to every one of them, and
      belongs to `<none>` only if a label names that role explicitly. */
  lemma MultipleRolesAllKept(labels: seq<Label>, a: string, b: string, va: string, vb: string)
    requires a != "" && b != ""
    requires Label(RolePrefix + a, va) in labels && Label(RolePrefix + b, vb) in labels
    ensures a in RoleSet(labels) && b in RoleSet(labels)
    ensures NoRole in RoleSet(labels) <==> Declares(labels, NoRole)
  {
    var i :| 0 <= i < |labels| && labels[i] == Label(RolePrefix + a, va);
    var j :| 0 <= j < |labels| && labels[j] == Label(RolePrefix + b, vb);
    assert Declares(labels, a) && Declares(labels, b);
    RoleSetIsDeclaredRoles(labels);
  }
}
