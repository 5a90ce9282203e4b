/** ssl3_choose_cipher: one pass over a preference list with equal-preference groups. */
module CipherChoice {
  import opened Wrappers

  datatype Cipher = Cipher(id: bv16, minVersion: nat, maxVersion: nat, mkey: bv32, auth: bv32)

  /** What the handshake admits: the protocol version and the key exchange and authentication masks. */
  datatype Limits = Limits(version: nat, maskK: bv32, maskA: bv32) {
    predicate Admits(c: Cipher) {
      && c.minVersion <= version <= c.maxVersion
      && c.mkey & maskK != 0
      && c.auth & maskA != 0
    }
  }

  /** A preference list; `inGroup[i]` says that entry i is not the last of its equal-preference group. */
  datatype Preference = Preference(ciphers: seq<Cipher>, inGroup: seq<bool>) {
    ghost predicate Valid() {
      |inGroup| == |ciphers|
    }

    /** i and j lie in one group: no group ends between them. */
    ghost predicate SameGroup(i: nat, j: nat)
      requires Valid() && i < |ciphers| && j < |ciphers|
    {
      forall k :: (i <= k < j || j <= k < i) ==> inGroup[k]
    }

    /** The list marks the end of i's group. */
    ghost predicate Terminated(i: nat)
      requires Valid() && i < |ciphers|
    {
      exists k :: i <= k < |ciphers| && !inGroup[k]
    }
  }

  /** sk_SSL_CIPHER_find on an unsorted stack: the first position of `c`. */
  function Find(stack: seq<Cipher>, c: Cipher): (r: Option<nat>)
    ensures r.Some? <==> c in stack
    ensures r.Some? ==> r.value < |stack| && stack[r.value] == c && c !in stack[..r.value]
  {
    if stack == [] then None
    else if stack[0] == c then Some(0)
    else match Find(stack[1..], c)
      case None => None
      case Some(k) =>
        assert stack[..k + 1] == [stack[0]] + stack[1..][..k];
        Some(k + 1)
  }

  ghost predicate Acceptable(prio: Preference, allow: seq<Cipher>, limits: Limits, i: nat)
    requires i < |prio.ciphers|
  {
    limits.Admits(prio.ciphers[i]) && prio.ciphers[i] in allow
  }

  /** Entry i is the right answer: it is acceptable, its group is the earliest holding an acceptable entry, and
      within that group the peer's list `allow` ranks it first. */
  ghost predicate IsBest(prio: Preference, allow: seq<Cipher>, limits: Limits, i: nat)
    requires prio.Valid()
  {
    && i < |prio.ciphers|
    && Acceptable(prio, allow, limits, i)
    && prio.Terminated(i)
    && forall j: nat :: j < |prio.ciphers| && Acceptable(prio, allow, limits, j) ==>
         if prio.SameGroup(i, j)
         then Find(allow, prio.ciphers[i]).value <= Find(allow, prio.ciphers[j]).value
         else i < j
  }

  /** The preference-list answer: nothing is chosen iff every acceptable entry is in a group whose end is unmarked. */
  ghost predicate ServerChoice(server: Preference, clientList: seq<Cipher>, limits: Limits, r: Option<Cipher>)
    requires server.Valid()
  {
    match r
    case None => forall i: nat ::
      i < |server.ciphers| && Acceptable(server, clientList, limits, i) ==> !server.Terminated(i)
    case Some(c) => exists i: nat :: IsBest(server, clientList, limits, i) && server.ciphers[i] == c
  }

  /** At most one cipher is best. */
  lemma BestIsUnique(prio: Preference, allow: seq<Cipher>, limits: Limits, i: nat, j: nat)
    requires prio.Valid()
    requires IsBest(prio, allow, limits, i) && IsBest(prio, allow, limits, j)
    ensures prio.ciphers[i] == prio.ciphers[j]
  {
    assert prio.SameGroup(i, j) <==> prio.SameGroup(j, i);
  }

  /** After entries [start, i) of the current group: `groupMin` is the least index found in `allow`, for entry
      `best`, or -1. */
  ghost predicate GroupSoFar(prio: Preference, allow: seq<Cipher>, limits: Limits, start: nat, i: nat,
                             groupMin: int, best: nat)
    requires prio.Valid() && start <= i <= |prio.ciphers|
  {
    if groupMin == -1 then forall j: nat :: start <= j < i ==> !Acceptable(prio, allow, limits, j)
    else
      && start <= best < i && Acceptable(prio, allow, limits, best)
      && Find(allow, prio.ciphers[best]) == Some(groupMin)
      && forall j: nat :: start <= j < i && Acceptable(prio, allow, limits, j) ==>
           groupMin <= Find(allow, prio.ciphers[j]).value
  }

  /** Entries before `start` hold nothing acceptable, and [start, i) lies in one group. */
  ghost predicate GroupBegins(prio: Preference, allow: seq<Cipher>, limits: Limits, start: nat, i: nat)
    requires prio.Valid() && start <= i <= |prio.ciphers|
  {
    && (start == 0 || !prio.inGroup[start - 1])
    && (forall k :: start <= k < i ==> prio.inGroup[k])
    && forall j: nat :: j < start ==> !Acceptable(prio, allow, limits, j)
  }

  /** An entry that joins the current group takes over when it ranks before everything found so far. */
  lemma GroupGrows(prio: Preference, allow: seq<Cipher>, limits: Limits, start: nat, i: nat, groupMin: int, best: nat)
    requires prio.Valid() && start <= i < |prio.ciphers| && groupMin >= -1
    requires GroupSoFar(prio, allow, limits, start, i, groupMin, best)
    ensures var found := Find(allow, prio.ciphers[i]);
            if !Acceptable(prio, allow, limits, i) then GroupSoFar(prio, allow, limits, start, i + 1, groupMin, best)
            else if groupMin == -1 || groupMin > found.value
            then GroupSoFar(prio, allow, limits, start, i + 1, found.value, i)
            else GroupSoFar(prio, allow, limits, start, i + 1, groupMin, best)
  {
    hide Find, Limits.Admits;
  }

  /** The loop. `prio` is walked in order; `groupMin` is the least index in `allow` found in the current group. */
  method ChooseFrom(prio: Preference, allow: seq<Cipher>, limits: Limits) returns (r: Option<Cipher>)
    requires prio.Valid()
    ensures ServerChoice(prio, allow, limits, r)
  {
    hide ServerChoice, IsBest, Limits.Admits, Find;
    var groupMin := -1;
    ghost var start := 0;  // where the current group begins
    ghost var best := 0;   // the entry groupMin stands for
    for i := 0 to |prio.ciphers|
      invariant 0 <= start <= i && -1 <= groupMin < |allow|
      invariant GroupBegins(prio, allow, limits, start, i)
      invariant GroupSoFar(prio, allow, limits, start, i, groupMin, best)
    {
      GroupGrows(prio, allow, limits, start, i, groupMin, best);
      var c := prio.ciphers[i];
      var found := Find(allow, c);
      if limits.Admits(c) && found.Some? {
        var cipherIndex: int := found.value;
        if prio.inGroup[i] {
          if groupMin == -1 || groupMin > cipherIndex {
            groupMin, best := cipherIndex, i;
          }
        } else {
          ghost var answer := i;
          if groupMin != -1 && groupMin < cipherIndex {
            cipherIndex, answer := groupMin, best;
          }
          BestInGroup(prio, allow, limits, start, i, answer);
          return Some(allow[cipherIndex]);
        }
      }
      if !prio.inGroup[i] && groupMin != -1 {
        BestInGroup(prio, allow, limits, start, i, best);
        return Some(allow[groupMin]);
      }
      if !prio.inGroup[i] {
        start := i + 1;
      }
    }
    NothingToChoose(prio, allow, limits, start);
    return None;
  }

  lemma NothingToChoose(prio: Preference, allow: seq<Cipher>, limits: Limits, start: nat)
    requires prio.Valid() && start <= |prio.ciphers| && GroupBegins(prio, allow, limits, start, |prio.ciphers|)
    ensures ServerChoice(prio, allow, limits, None)
  {
  }

  lemma BestInGroup(prio: Preference, allow: seq<Cipher>, limits: Limits, start: nat, end: nat, i: nat)
    requires prio.Valid() && start <= i <= end < |prio.ciphers| && !prio.inGroup[end]
    requires GroupBegins(prio, allow, limits, start, end) && Acceptable(prio, allow, limits, i)
    requires forall j: nat :: start <= j <= end && Acceptable(prio, allow, limits, j) ==>
               Find(allow, prio.ciphers[i]).value <= Find(allow, prio.ciphers[j]).value
    ensures ServerChoice(prio, allow, limits, Some(prio.ciphers[i]))
  {
    forall j: nat | j < |prio.ciphers| && Acceptable(prio, allow, limits, j)
      ensures if prio.SameGroup(i, j)
              then Find(allow, prio.ciphers[i]).value <= Find(allow, prio.ciphers[j]).value
              else i < j
    {
      if j <= end {
        assert prio.SameGroup(i, j);
      } else {
        assert i <= end < j && !prio.inGroup[end];
      }
    }
    assert IsBest(prio, allow, limits, i);
  }

  /** The answer without server preference: the client's first cipher that the server also lists and admits. */
  ghost predicate ClientChoice(serverCiphers: seq<Cipher>, clientList: seq<Cipher>, limits: Limits, r: Option<Cipher>) {
    match r
    case None => forall c :: c in clientList && limits.Admits(c) ==> c !in serverCiphers
    case Some(c) => exists i: nat ::
      && i < |clientList| && clientList[i] == c
      && c in serverCiphers && limits.Admits(c)
      && forall j: nat :: j < i && limits.Admits(clientList[j]) ==> clientList[j] !in serverCiphers
  }

  /** The whole function. `clientList` is None when the ClientHello's cipher list does not parse. */
  method ChooseCipher(clientList: Option<seq<Cipher>>, server: Preference, serverPreference: bool, limits: Limits)
    returns (r: Option<Cipher>)
    requires server.Valid()
    ensures clientList.None? ==> r.None?
    ensures clientList.Some? && serverPreference ==> ServerChoice(server, clientList.value, limits, r)
    ensures clientList.Some? && !serverPreference ==> ClientChoice(server.ciphers, clientList.value, limits, r)
  {
    if clientList.None? {
      return None;
    }
    if serverPreference {
      r := ChooseFrom(server, clientList.value, limits);
    } else {
      var client := Preference(clientList.value, seq(|clientList.value|, _ => false));
      r := ChooseFrom(client, server.ciphers, limits);
      UngroupedChoice(client, server.ciphers, limits, r);
    }
  }

  /** With no groups the two forms of answer agree. */
  lemma UngroupedChoice(client: Preference, serverCiphers: seq<Cipher>, limits: Limits, r: Option<Cipher>)
    requires client.Valid() && (forall k :: 0 <= k < |client.inGroup| ==> !client.inGroup[k])
    requires ServerChoice(client, serverCiphers, limits, r)
    ensures ClientChoice(serverCiphers, client.ciphers, limits, r)
  {
    forall i: nat | i < |client.ciphers| ensures client.Terminated(i) {
      assert !client.inGroup[i];
    }
    match r
    case None =>
      forall c | c in client.ciphers && limits.Admits(c) ensures c !in serverCiphers {
        var i :| 0 <= i < |client.ciphers| && client.ciphers[i] == c;
        assert !Acceptable(client, serverCiphers, limits, i);
      }
    case Some(c) =>
      var i: nat :| IsBest(client, serverCiphers, limits, i) && client.ciphers[i] == c;
      forall j: nat | j < i && limits.Admits(client.ciphers[j]) ensures client.ciphers[j] !in serverCiphers {
        assert !client.inGroup[j];
        assert !client.SameGroup(i, j);
        assert !Acceptable(client, serverCiphers, limits, j);
      }
  }

  /** A list whose last flag ends its group loses nothing: there is an answer iff some entry is acceptable. */
  lemma LastFlagEndsItsGroup(server: Preference, clientList: seq<Cipher>, limits: Limits, r: Option<Cipher>)
    requires server.Valid() && (server.inGroup != [] ==> !server.inGroup[|server.inGroup| - 1])
    requires ServerChoice(server, clientList, limits, r)
    ensures r.None? <==> forall i: nat :: i < |server.ciphers| ==> !Acceptable(server, clientList, limits, i)
  {
    assert forall i: nat :: i < |server.ciphers| ==> server.Terminated(i);
  }

  /** Without that marker the answer can be lost: the only shared cipher, flagged as "not last", is passed over. */
  lemma UnterminatedGroupLosesItsCipher(c: Cipher, limits: Limits, r: Option<Cipher>)
    requires limits.Admits(c)
    requires ServerChoice(Preference([c], [true]), [c], limits, r)
    ensures r.None? && Acceptable(Preference([c], [true]), [c], limits, 0)
  {
  }
}
