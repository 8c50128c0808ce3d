/** What a device reads in a whole signing session, from the data of the SIGN_PSBT command
    on, through any host. */
module SessionReads {
  import opened Common
  import opened CompactSize
  import opened KeyOrder
  import opened Device
  import opened Wallet

  /** Elements index, index + 1, ... of a committed list. */
  function ReadFrom<S>(h: Hash, host: Host<S>, s: S, root: Digest, size: nat, index: nat): (Read<seq<Bytes>>, S)
    decreases if index < size then size - index else 0
  {
    if index >= size then (Got([]), s)
    else
      var (element, s1) := ReadElement(h, host, s, root, size, index);
      if !element.Got? then (element.Failed(), s1)
      else
        var (rest, s2) := ReadFrom(h, host, s1, root, size, index + 1);
        (if rest.Got? then Got([element.value] + rest.value) else rest, s2)
  }

  function Zip(keys: seq<Bytes>, values: seq<Bytes>): Mapping
    requires |keys| == |values|
  {
    seq(|keys|, i requires 0 <= i < |keys| => Pair(keys[i], values[i]))
  }

  /** The whole mapping behind a commitment. */
  function ReadMap<S>(h: Hash, host: Host<S>, s: S, commitment: Bytes): (Read<Mapping>, S) {
    match ParseCommitment(commitment)
    case None => (Garbled, s)
    case Some(Commitment(size, keysRoot, valuesRoot)) =>
      var (keys, s1) := ReadFrom(h, host, s, keysRoot, size, 0);
      if !keys.Got? then (keys.Failed(), s1)
      else
        var (values, s2) := ReadFrom(h, host, s1, valuesRoot, size, 0);
        (if !values.Got? then values.Failed()
         else if |keys.value| == |values.value| then Got(Zip(keys.value, values.value)) else Garbled, s2)
  }

  function ReadMaps<S>(h: Hash, host: Host<S>, s: S, commitments: seq<Bytes>): (Read<seq<Mapping>>, S)
    decreases |commitments|
  {
    if commitments == [] then (Got([]), s)
    else
      var (m, s1) := ReadMap(h, host, s, commitments[0]);
      if !m.Got? then (m.Failed(), s1)
      else
        var (rest, s2) := ReadMaps(h, host, s1, commitments[1..]);
        (if rest.Got? then Got([m.value] + rest.value) else rest, s2)
  }

  /** The maps behind a committed list of commitments. */
  function ReadCommitted<S>(h: Hash, host: Host<S>, s: S, root: Digest, size: nat): (Read<seq<Mapping>>, S) {
    var (commitments, s1) := ReadFrom(h, host, s, root, size, 0);
    if !commitments.Got? then (commitments.Failed(), s1) else ReadMaps(h, host, s1, commitments.value)
  }

  datatype PolicyView = PolicyView(version: Version, name: Bytes, template: Bytes, keys: seq<Bytes>)

  function ReadPolicy<S>(h: Hash, host: Host<S>, s: S, id: Digest): (Read<PolicyView>, S) {
    var (c, s1) := ReadPreimage(h, host, s, id);
    if !c.Got? then (c.Failed(), s1)
    else
      match ParsePolicy(c.value.bytes)
      case None => (Garbled, s1)
      case Some(header) => ReadPolicyParts(h, host, s1, header)
  }

  function ReadPolicyParts<S>(h: Hash, host: Host<S>, s: S, header: PolicyHeader): (Read<PolicyView>, S) {
    var (template, s1) := ReadTemplate(h, host, s, header);
    if !template.Got? then (template.Failed(), s1)
    else
      var (keys, s2) := ReadFrom(h, host, s1, header.keysRoot, header.keyCount, 0);
      (if keys.Got? then Got(PolicyView(header.version, header.name, template.value, keys.value)) else keys.Failed(), s2)
  }

  function ReadTemplate<S>(h: Hash, host: Host<S>, s: S, header: PolicyHeader): (Read<Bytes>, S) {
    if header.version == V1 then (Got(header.template), s)
    else if |header.template| != 32 then (Garbled, s)
    else
      var (c, s1) := ReadPreimage(h, host, s, Digest(header.template));
      (if !c.Got? then c.Failed() else if |c.value.bytes| == header.templateSize then Got(c.value.bytes) else Garbled, s1)
  }

  /** The policy behind the data of the REGISTER_WALLET command, which holds it serialized. */
  function ReadRegistered<S>(h: Hash, host: Host<S>, s: S, data: Bytes): (Read<PolicyView>, S) {
    match ParseRegistered(data)
    case None => (Garbled, s)
    case Some(header) => ReadPolicyParts(h, host, s, header)
  }

  function ParseRegistered(data: Bytes): Option<PolicyHeader> {
    match Decode(data)
    case Err(_) => None
    case Ok(Decoded(size, read)) => if |data| != read + size then None else ParsePolicy(data[read..])
  }

  datatype SessionHeader = SessionHeader(
    global: Bytes, inputCount: nat, inputsRoot: Digest, outputCount: nat, outputsRoot: Digest,
    policyId: Digest, hmac: Bytes)

  datatype Counted = Counted(count: nat, root: Digest, rest: Bytes)

  function ParseCounted(bytes: Bytes): Option<Counted> {
    match Decode(bytes)
    case Err(_) => None
    case Ok(Decoded(count, read)) =>
      if |bytes| < read + 32 then None
      else Some(Counted(count, Digest(bytes[read..][..32]), bytes[read..][32..]))
  }

  function ParseSession(data: Bytes): Option<SessionHeader> {
    match Decode(data)
    case Err(_) => None
    case Ok(Decoded(_, read)) =>
      if |data| < read + 64 then None
      else
        match ParseCounted(data[read + 64..])
        case None => None
        case Some(Counted(inputCount, inputsRoot, rest)) =>
          match ParseCounted(rest)
          case None => None
          case Some(Counted(outputCount, outputsRoot, tail)) =>
            if |tail| != 64 then None
            else Some(SessionHeader(data[..read + 64], inputCount, inputsRoot, outputCount, outputsRoot,
                                    Digest(tail[..32]), tail[32..]))
  }

  datatype SessionView = SessionView(
    policy: PolicyView, hmac: Bytes, global: Mapping, inputs: seq<Mapping>, outputs: seq<Mapping>)

  /** Everything a device can reach from the data of the SIGN_PSBT command. */
  function ReadSession<S>(h: Hash, host: Host<S>, s: S, data: Bytes): (Read<SessionView>, S) {
    match ParseSession(data)
    case None => (Garbled, s)
    case Some(header) =>
      var (policy, s1) := ReadPolicy(h, host, s, header.policyId);
      if !policy.Got? then (policy.Failed(), s1)
      else ReadParts(h, host, s1, header, policy.value)
  }

  function ReadParts<S>(h: Hash, host: Host<S>, s: S, header: SessionHeader, policy: PolicyView): (Read<SessionView>, S) {
    var (global, s1) := ReadMap(h, host, s, header.global);
    if !global.Got? then (global.Failed(), s1)
    else
      var (inputs, s2) := ReadCommitted(h, host, s1, header.inputsRoot, header.inputCount);
      if !inputs.Got? then (inputs.Failed(), s2)
      else
        var (outputs, s3) := ReadCommitted(h, host, s2, header.outputsRoot, header.outputCount);
        (if outputs.Got? then Got(SessionView(policy, header.hmac, global.value, inputs.value, outputs.value))
         else outputs.Failed(), s3)
  }

  // ---- these reads, too, depend on the answers only ----

  lemma {:induction false} ListsAlike<A(!new), B(!new)>(h: Hash, x: Host<A>, y: Host<B>, related: (A, B, bool) -> bool, a: A, b: B,
                                                        root: Digest, size: nat, index: nat)
    requires Simulates(x, y, related) && related(a, b, true)
    ensures Alike(related, ReadFrom(h, x, a, root, size, index), ReadFrom(h, y, b, root, size, index))
    decreases if index < size then size - index else 0
  {
    hide ReadElement, Simulates;
    if index < size {
      ElementsAlike(h, x, y, related, a, b, root, size, index);
      var (element, a1) := ReadElement(h, x, a, root, size, index);
      if element.Got? {
        ListsAlike(h, x, y, related, a1, ReadElement(h, y, b, root, size, index).1, root, size, index + 1);
      }
    }
  }

  lemma MapsAlike<A(!new), B(!new)>(h: Hash, x: Host<A>, y: Host<B>, related: (A, B, bool) -> bool, a: A, b: B, commitment: Bytes)
    requires Simulates(x, y, related) && related(a, b, true)
    ensures Alike(related, ReadMap(h, x, a, commitment), ReadMap(h, y, b, commitment))
  {
    hide ReadFrom, ParseCommitment, Simulates;
    var parsed := ParseCommitment(commitment);
    if parsed.Some? {
      var Commitment(size, keysRoot, valuesRoot) := parsed.value;
      ListsAlike(h, x, y, related, a, b, keysRoot, size, 0);
      var (keys, a1) := ReadFrom(h, x, a, keysRoot, size, 0);
      if keys.Got? {
        ListsAlike(h, x, y, related, a1, ReadFrom(h, y, b, keysRoot, size, 0).1, valuesRoot, size, 0);
      }
    }
  }

  lemma {:induction false} AllMapsAlike<A(!new), B(!new)>(h: Hash, x: Host<A>, y: Host<B>, related: (A, B, bool) -> bool, a: A, b: B,
                                                          commitments: seq<Bytes>)
    requires Simulates(x, y, related) && related(a, b, true)
    ensures Alike(related, ReadMaps(h, x, a, commitments), ReadMaps(h, y, b, commitments))
    decreases |commitments|
  {
    hide ReadMap, Simulates;
    if commitments != [] {
      MapsAlike(h, x, y, related, a, b, commitments[0]);
      var (m, a1) := ReadMap(h, x, a, commitments[0]);
      if m.Got? {
        AllMapsAlike(h, x, y, related, a1, ReadMap(h, y, b, commitments[0]).1, commitments[1..]);
      }
    }
  }

  lemma CommittedAlike<A(!new), B(!new)>(h: Hash, x: Host<A>, y: Host<B>, related: (A, B, bool) -> bool, a: A, b: B,
                                         root: Digest, size: nat)
    requires Simulates(x, y, related) && related(a, b, true)
    ensures Alike(related, ReadCommitted(h, x, a, root, size), ReadCommitted(h, y, b, root, size))
  {
    hide ReadFrom, ReadMaps, Simulates;
    ListsAlike(h, x, y, related, a, b, root, size, 0);
    var (commitments, a1) := ReadFrom(h, x, a, root, size, 0);
    if commitments.Got? {
      AllMapsAlike(h, x, y, related, a1, ReadFrom(h, y, b, root, size, 0).1, commitments.value);
    }
  }

  lemma TemplatesAlike<A(!new), B(!new)>(h: Hash, x: Host<A>, y: Host<B>, related: (A, B, bool) -> bool, a: A, b: B, header: PolicyHeader)
    requires Simulates(x, y, related) && related(a, b, true)
    ensures Alike(related, ReadTemplate(h, x, a, header), ReadTemplate(h, y, b, header))
  {
    hide ReadPreimage, Simulates;
    if header.version != V1 && |header.template| == 32 {
      PreimagesAlike(h, x, y, related, a, b, Digest(header.template));
    }
  }

  lemma PolicyPartsAlike<A(!new), B(!new)>(h: Hash, x: Host<A>, y: Host<B>, related: (A, B, bool) -> bool, a: A, b: B, header: PolicyHeader)
    requires Simulates(x, y, related) && related(a, b, true)
    ensures Alike(related, ReadPolicyParts(h, x, a, header), ReadPolicyParts(h, y, b, header))
  {
    hide ReadTemplate, ReadFrom, Simulates;
    TemplatesAlike(h, x, y, related, a, b, header);
    var (template, a1) := ReadTemplate(h, x, a, header);
    if template.Got? {
      ListsAlike(h, x, y, related, a1, ReadTemplate(h, y, b, header).1, header.keysRoot, header.keyCount, 0);
    }
  }

  lemma PoliciesAlike<A(!new), B(!new)>(h: Hash, x: Host<A>, y: Host<B>, related: (A, B, bool) -> bool, a: A, b: B, id: Digest)
    requires Simulates(x, y, related) && related(a, b, true)
    ensures Alike(related, ReadPolicy(h, x, a, id), ReadPolicy(h, y, b, id))
  {
    hide ReadPreimage, ReadPolicyParts, ParsePolicy, Simulates;
    PreimagesAlike(h, x, y, related, a, b, id);
    var (c, a1) := ReadPreimage(h, x, a, id);
    if c.Got? && ParsePolicy(c.value.bytes).Some? {
      PolicyPartsAlike(h, x, y, related, a1, ReadPreimage(h, y, b, id).1, ParsePolicy(c.value.bytes).value);
    }
  }

  lemma RegisteredAlike<A(!new), B(!new)>(h: Hash, x: Host<A>, y: Host<B>, related: (A, B, bool) -> bool, a: A, b: B, data: Bytes)
    requires Simulates(x, y, related) && related(a, b, true)
    ensures Alike(related, ReadRegistered(h, x, a, data), ReadRegistered(h, y, b, data))
  {
    hide ParseRegistered, ReadPolicyParts, Simulates;
    if ParseRegistered(data).Some? {
      PolicyPartsAlike(h, x, y, related, a, b, ParseRegistered(data).value);
    }
  }

  lemma PartsAlike<A(!new), B(!new)>(h: Hash, x: Host<A>, y: Host<B>, related: (A, B, bool) -> bool, a: A, b: B,
                                     header: SessionHeader, policy: PolicyView)
    requires Simulates(x, y, related) && related(a, b, true)
    ensures Alike(related, ReadParts(h, x, a, header, policy), ReadParts(h, y, b, header, policy))
  {
    hide ReadMap, ReadCommitted, Simulates;
    MapsAlike(h, x, y, related, a, b, header.global);
    var (global, a1) := ReadMap(h, x, a, header.global);
    var b1 := ReadMap(h, y, b, header.global).1;
    if global.Got? {
      CommittedAlike(h, x, y, related, a1, b1, header.inputsRoot, header.inputCount);
      var (inputs, a2) := ReadCommitted(h, x, a1, header.inputsRoot, header.inputCount);
      if inputs.Got? {
        CommittedAlike(h, x, y, related, a2, ReadCommitted(h, y, b1, header.inputsRoot, header.inputCount).1,
                       header.outputsRoot, header.outputCount);
      }
    }
  }

  lemma SessionsAlike<A(!new), B(!new)>(h: Hash, x: Host<A>, y: Host<B>, related: (A, B, bool) -> bool, a: A, b: B, data: Bytes)
    requires Simulates(x, y, related) && related(a, b, true)
    ensures Alike(related, ReadSession(h, x, a, data), ReadSession(h, y, b, data))
  {
    hide ParseSession, ReadPolicy, ReadParts, Simulates;
    if ParseSession(data).Some? {
      var header := ParseSession(data).value;
      PoliciesAlike(h, x, y, related, a, b, header.policyId);
      var (policy, a1) := ReadPolicy(h, x, a, header.policyId);
      if policy.Got? {
        PartsAlike(h, x, y, related, a1, ReadPolicy(h, y, b, header.policyId).1, header, policy.value);
      }
    }
  }
}
