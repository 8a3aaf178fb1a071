/** How many session roles are charged to each address, and the counter map that tracks it. */
module Counts {

  /** The addresses a session's two roles are charged to; an empty key is charged to nobody. */
  datatype Roles = Roles(sender: string, receiver: string)

  function Charged(r: Roles, k: string): nat {
    (if r.sender == k then 1 else 0) + (if r.receiver == k then 1 else 0)
  }

  ghost function SendersAt(roles: map<string, Roles>, k: string): set<string> {
    set id | id in roles && roles[id].sender == k
  }

  ghost function ReceiversAt(roles: map<string, Roles>, k: string): set<string> {
    set id | id in roles && roles[id].receiver == k
  }

  ghost function Charges(roles: map<string, Roles>, k: string): nat {
    |SendersAt(roles, k)| + |ReceiversAt(roles, k)|
  }

  lemma SendersDrop(roles: map<string, Roles>, id: string, k: string)
    requires id in roles
    ensures |SendersAt(roles, k)| == |SendersAt(roles - {id}, k)| + (if roles[id].sender == k then 1 else 0)
  {
    if roles[id].sender == k {
      assert SendersAt(roles, k) == SendersAt(roles - {id}, k) + {id};
    } else {
      assert SendersAt(roles, k) == SendersAt(roles - {id}, k);
    }
  }

  lemma ReceiversDrop(roles: map<string, Roles>, id: string, k: string)
    requires id in roles
    ensures |ReceiversAt(roles, k)| == |ReceiversAt(roles - {id}, k)| + (if roles[id].receiver == k then 1 else 0)
  {
    if roles[id].receiver == k {
      assert ReceiversAt(roles, k) == ReceiversAt(roles - {id}, k) + {id};
    } else {
      assert ReceiversAt(roles, k) == ReceiversAt(roles - {id}, k);
    }
  }

  lemma ChargesDrop(roles: map<string, Roles>, id: string, k: string)
    requires id in roles
    ensures Charges(roles, k) == Charges(roles - {id}, k) + Charged(roles[id], k)
  {
    hide SendersAt, ReceiversAt;
    SendersDrop(roles, id, k);
    ReceiversDrop(roles, id, k);
  }

  lemma ChargesPut(roles: map<string, Roles>, id: string, r: Roles, k: string)
    ensures Charges(roles[id := r], k) == Charges(roles - {id}, k) + Charged(r, k)
  {
    ChargesDrop(roles[id := r], id, k);
    assert roles[id := r] - {id} == roles - {id};
  }

  lemma ChargesSame(roles: map<string, Roles>, id: string, k: string)
    requires id !in roles
    ensures Charges(roles - {id}, k) == Charges(roles, k)
  {
    assert roles - {id} == roles;
  }

  /** The counter of every address is its number of charged roles, and no counter is zero. */
  ghost predicate CountsMatch(counts: map<string, int>, roles: map<string, Roles>) {
    && "" !in counts
    && forall k: string :: k != "" ==>
         && (k in counts <==> Charges(roles, k) > 0)
         && (k in counts ==> counts[k] == Charges(roles, k))
  }

  function Charge(counts: map<string, int>, key: string): map<string, int> {
    counts[key := (if key in counts then counts[key] else 0) + 1]
  }

  function Release(counts: map<string, int>, key: string): map<string, int> {
    if key == "" then counts
    else
      var n := (if key in counts then counts[key] else 0) - 1;
      if n <= 0 then counts - {key} else counts[key := n]
  }

  /** One more role charged to a key raises its charges by one, and no other's. */
  lemma ChargesGrow(roles: map<string, Roles>, id: string, r: Roles, key: string)
    requires forall k: string :: k != "" ==>
               Charged(r, k) == (if id in roles then Charged(roles[id], k) else 0) + (if k == key then 1 else 0)
    ensures forall k: string :: k != "" ==> Charges(roles[id := r], k) == Charges(roles, k) + (if k == key then 1 else 0)
  {
    hide Charges, Charged;
    forall k: string | k != ""
      ensures Charges(roles[id := r], k) == Charges(roles, k) + (if k == key then 1 else 0)
    {
      ChargesPut(roles, id, r, k);
      if id in roles {
        ChargesDrop(roles, id, k);
      } else {
        ChargesSame(roles, id, k);
      }
    }
  }

  /** Charging a new or changed role keeps the counters exact. */
  lemma ChargeMatches(counts: map<string, int>, roles: map<string, Roles>, id: string, r: Roles, key: string)
    requires CountsMatch(counts, roles) && key != ""
    requires forall k: string :: k != "" ==>
               Charged(r, k) == (if id in roles then Charged(roles[id], k) else 0) + (if k == key then 1 else 0)
    ensures CountsMatch(Charge(counts, key), roles[id := r])
  {
    hide Charges;
    ChargesGrow(roles, id, r, key);
  }

  /** Dropping a session releases both its roles. */
  lemma ReleaseMatches(counts: map<string, int>, roles: map<string, Roles>, id: string)
    requires CountsMatch(counts, roles) && id in roles
    ensures CountsMatch(Release(Release(counts, roles[id].sender), roles[id].receiver), roles - {id})
  {
    hide Charges;
    var r := roles[id];
    var once := Release(counts, r.sender);
    forall k: string | k != ""
      ensures Charges(roles, k) == Charges(roles - {id}, k) + Charged(r, k)
    {
      ChargesDrop(roles, id, k);
    }
  }
}
