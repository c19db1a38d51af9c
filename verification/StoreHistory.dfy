/** What a store answers, read off the calls made so far and their answers alone. */
module StoreHistories {
  import opened Records

  datatype Key = CodeKey(hash: Digest) | TokenKey(hash: Digest) | ConsentKey(hash: Digest) | SessionKey(subject: string)

  predicate Saves(call: Call, key: Key) {
    match call
    case SaveCode(code) => key == CodeKey(code.valueHash)
    case SaveToken(token) => key == TokenKey(token.valueHash)
    case SaveConsent(request) => key == ConsentKey(request.valueHash)
    case SaveSession(subject, _) => key == SessionKey(subject)
    case _ => false
  }

  /** Call `j` is the last one that saved under the key. */
  ghost predicate LastSave(calls: seq<Call>, j: nat, key: Key) {
    j < |calls| && Saves(calls[j], key) && forall k :: j < k < |calls| ==> !Saves(calls[k], key)
  }

  ghost predicate NeverSaved(calls: seq<Call>, key: Key) {
    forall k :: 0 <= k < |calls| ==> !Saves(calls[k], key)
  }

  function Contents(calls: seq<Call>): Vault {
    ExecuteAll(EmptyVault, calls).0
  }

  function Answers(calls: seq<Call>): (r: seq<Answer>)
    ensures |r| == |calls|
  {
    ExecuteAll(EmptyVault, calls).1
  }

  /** What the store answers to one more call. */
  function Next(calls: seq<Call>, call: Call): Answer {
    Execute(Contents(calls), call).1
  }

  /** The answer hands out what is stored under the key. */
  predicate Gets(call: Call, answer: Answer, key: Key) {
    match call
    case ConsumeCode(value, _) => key == CodeKey(HashSecret(value)) && answer.GotCode?
    case ConsumeToken(value, _) => key == TokenKey(HashSecret(value)) && answer.GotToken?
    case ConsumeConsent(value, _) => key == ConsentKey(HashSecret(value)) && answer.GotConsent?
    case _ => false
  }

  /** It was handed out after call `j`. */
  ghost predicate Spent(calls: seq<Call>, j: nat, key: Key) {
    GotAfter(calls, Answers(calls), j, key)
  }

  ghost predicate GotAfter(calls: seq<Call>, answers: seq<Answer>, j: nat, key: Key)
    requires |answers| == |calls|
  {
    exists k :: j < k < |calls| && Gets(calls[k], answers[k], key)
  }

  /** When call `k` is made, the token of this value belongs to the family. */
  ghost predicate InFamily(calls: seq<Call>, k: nat, value: string, family: string)
    requires k < |calls|
  {
    exists i: nat :: LastSave(calls[..k], i, TokenKey(HashSecret(value))) && calls[i].token.familyID == family
  }

  /** Call `k` revokes the token: by its value, or by the value of any token of its family. */
  ghost predicate Cancels(calls: seq<Call>, k: nat, token: RefreshToken)
    requires k < |calls|
  {
    || ((calls[k].RevokeToken? || calls[k].RevokeFamily?) && HashSecret(calls[k].value) == token.valueHash)
    || (calls[k].RevokeFamily? && token.familyID != "" && InFamily(calls, k, calls[k].value, token.familyID))
  }

  ghost predicate Cancelled(calls: seq<Call>, j: nat)
    requires j < |calls| && calls[j].SaveToken?
  {
    exists k :: j < k < |calls| && Cancels(calls, k, calls[j].token)
  }

  // ---- one call more ----

  lemma {:induction false} OneMore(calls: seq<Call>)
    requires calls != []
    ensures var init, last := calls[..|calls| - 1], calls[|calls| - 1];
      && Contents(calls) == Execute(Contents(init), last).0
      && Answers(calls) == Answers(init) + [Next(init, last)]
  {
  }

  lemma {:induction false} SaveBefore(calls: seq<Call>, j: nat, key: Key)
    requires LastSave(calls, j, key) && j + 1 < |calls|
    ensures LastSave(calls[..|calls| - 1], j, key) && !Saves(calls[|calls| - 1], key)
  {
  }

  lemma {:induction false} SpentBefore(calls: seq<Call>, j: nat, key: Key)
    requires j + 1 < |calls|
    ensures var n := |calls| - 1;
      Spent(calls, j, key) <==> Spent(calls[..n], j, key) || Gets(calls[n], Next(calls[..n], calls[n]), key)
  {
    OneMore(calls);
    GotOneMore(calls, Answers(calls), j, key);
  }

  lemma GotOneMore(calls: seq<Call>, answers: seq<Answer>, j: nat, key: Key)
    requires |answers| == |calls| && j + 1 < |calls|
    ensures var n := |calls| - 1;
      GotAfter(calls, answers, j, key) <==> GotAfter(calls[..n], answers[..n], j, key) || Gets(calls[n], answers[n], key)
  {
    var n := |calls| - 1;
    assert forall k :: 0 <= k < n ==> calls[..n][k] == calls[k] && answers[..n][k] == answers[k];
  }

  lemma {:induction false} CancelsBefore(calls: seq<Call>, k: nat, token: RefreshToken)
    requires k + 1 < |calls|
    ensures Cancels(calls, k, token) <==> Cancels(calls[..|calls| - 1], k, token)
  {
    assert calls[..|calls| - 1][..k] == calls[..k];
  }

  lemma {:induction false} CancelledBefore(calls: seq<Call>, j: nat)
    requires j + 1 < |calls| && calls[j].SaveToken?
    ensures var n := |calls| - 1;
      Cancelled(calls, j) <==> Cancelled(calls[..n], j) || Cancels(calls, n, calls[j].token)
  {
    var n := |calls| - 1;
    forall k | 0 <= k < n ensures Cancels(calls, k, calls[j].token) <==> Cancels(calls[..n], k, calls[j].token) {
      CancelsBefore(calls, k, calls[j].token);
    }
  }

  predicate Stored(v: Vault, key: Key) {
    match key
    case CodeKey(h) => h in v.codes
    case TokenKey(h) => h in v.refresh
    case ConsentKey(h) => h in v.consent
    case SessionKey(subject) => subject in v.sessions
  }

  lemma {:induction false} NothingStored(calls: seq<Call>, key: Key)
    requires NeverSaved(calls, key)
    ensures !Stored(Contents(calls), key)
  {
    if calls != [] {
      var n := |calls| - 1;
      OneMore(calls);
      NothingStored(calls[..n], key);
      OnlySavesStore(Contents(calls[..n]), calls[n], key);
    }
  }

  lemma OnlySavesStore(v: Vault, call: Call, key: Key)
    requires !Stored(v, key) && !Saves(call, key)
    ensures !Stored(Execute(v, call).0, key)
  {
  }

  /** Either nothing was saved under the key, or there is a last save. */
  lemma {:induction false} SomeLastSave(calls: seq<Call>, key: Key) returns (j: nat)
    requires !NeverSaved(calls, key)
    ensures LastSave(calls, j, key)
  {
    var n := |calls| - 1;
    if Saves(calls[n], key) {
      j := n;
    } else {
      j := SomeLastSave(calls[..n], key);
    }
  }

  // ---- what is stored ----

  lemma {:induction false} CodeRecord(calls: seq<Call>, j: nat, h: Digest)
    requires LastSave(calls, j, CodeKey(h))
    ensures var v := Contents(calls);
      h in v.codes && v.codes[h] == calls[j].code.(used := calls[j].code.used || Spent(calls, j, CodeKey(h)))
  {
    OneMore(calls);
    if j + 1 < |calls| {
      SaveBefore(calls, j, CodeKey(h));
      CodeRecord(calls[..|calls| - 1], j, h);
      SpentBefore(calls, j, CodeKey(h));
    }
  }

  lemma {:induction false} ConsentRecord(calls: seq<Call>, j: nat, h: Digest)
    requires LastSave(calls, j, ConsentKey(h))
    ensures var v := Contents(calls);
      if Spent(calls, j, ConsentKey(h)) then h !in v.consent else h in v.consent && v.consent[h] == calls[j].request
  {
    OneMore(calls);
    if j + 1 < |calls| {
      SaveBefore(calls, j, ConsentKey(h));
      ConsentRecord(calls[..|calls| - 1], j, h);
      SpentBefore(calls, j, ConsentKey(h));
    }
  }

  lemma {:induction false} SessionRecord(calls: seq<Call>, j: nat, subject: string)
    requires LastSave(calls, j, SessionKey(subject))
    ensures var v := Contents(calls);
      subject in v.sessions && v.sessions[subject] == calls[j].session
  {
    OneMore(calls);
    if j + 1 < |calls| {
      SaveBefore(calls, j, SessionKey(subject));
      SessionRecord(calls[..|calls| - 1], j, subject);
    }
  }

  /** What one call does to a stored token that it does not save anew. */
  lemma TokenStep(v: Vault, call: Call, h: Digest)
    requires h in v.refresh && !Saves(call, TokenKey(h))
    ensures var (v', answer), t := Execute(v, call), v.refresh[h];
      h in v'.refresh && v'.refresh[h] == t.(used := t.used || Gets(call, answer, TokenKey(h)), revoked := t.revoked || Hits(v, call, h))
  {
  }

  predicate Hits(v: Vault, call: Call, h: Digest)
    requires h in v.refresh
  {
    || ((call.RevokeToken? || call.RevokeFamily?) && HashSecret(call.value) == h)
    || (call.RevokeFamily? && HashSecret(call.value) in v.refresh
        && v.refresh[HashSecret(call.value)].familyID == v.refresh[h].familyID != "")
  }

  lemma {:induction false} TokenRecord(calls: seq<Call>, j: nat, h: Digest)
    requires LastSave(calls, j, TokenKey(h))
    ensures var v, t := Contents(calls), calls[j].token;
      && h in v.refresh
      && v.refresh[h] == t.(used := t.used || Spent(calls, j, TokenKey(h)), revoked := t.revoked || Cancelled(calls, j))
    decreases |calls|
  {
    OneMore(calls);
    if j + 1 < |calls| {
      var n := |calls| - 1;
      SaveBefore(calls, j, TokenKey(h));
      TokenRecord(calls[..n], j, h);
      SpentBefore(calls, j, TokenKey(h));
      CancelledBefore(calls, j);
      HitCancels(calls, j, h);
      TokenStep(Contents(calls[..n]), calls[n], h);
    }
  }

  /** A family revocation finds the family of the presented token in the saves before it. */
  lemma {:induction false} HitCancels(calls: seq<Call>, j: nat, h: Digest)
    requires LastSave(calls, j, TokenKey(h)) && j + 1 < |calls|
    requires var v := Contents(calls[..|calls| - 1]); h in v.refresh && v.refresh[h].familyID == calls[j].token.familyID
    ensures var n := |calls| - 1;
      Cancels(calls, n, calls[j].token) <==> Hits(Contents(calls[..n]), calls[n], h)
    decreases |calls|, 0
  {
    var n := |calls| - 1;
    if calls[n].RevokeFamily? {
      var hx := HashSecret(calls[n].value);
      if NeverSaved(calls[..n], TokenKey(hx)) {
        NothingStored(calls[..n], TokenKey(hx));
        forall i: nat ensures !LastSave(calls[..n], i, TokenKey(hx)) {
        }
      } else {
        var i := SomeLastSave(calls[..n], TokenKey(hx));
        TokenRecord(calls[..n], i, hx);
      }
    }
  }

  // ---- what is answered ----

  ghost function CodeReply(calls: seq<Call>, j: nat, now: Instant): Answer
    requires j < |calls| && calls[j].SaveCode?
  {
    var code := calls[j].code;
    if code.expiresAt < now then Failed(NotFound)
    else if code.used || Spent(calls, j, CodeKey(code.valueHash)) then Failed(AlreadyUsed)
    else GotCode(code.(used := true))
  }

  ghost function TokenReply(calls: seq<Call>, j: nat, now: Instant): Answer
    requires j < |calls| && calls[j].SaveToken?
  {
    var token := calls[j].token;
    if token.expiresAt < now || token.revoked || Cancelled(calls, j) then Failed(NotFound)
    else if token.used || Spent(calls, j, TokenKey(token.valueHash)) then Failed(AlreadyUsed)
    else GotToken(token.(used := true))
  }

  ghost function ConsentReply(calls: seq<Call>, j: nat, now: Instant): Answer
    requires j < |calls| && calls[j].SaveConsent?
  {
    var request := calls[j].request;
    if request.expiresAt < now || Spent(calls, j, ConsentKey(request.valueHash)) then Failed(NotFound) else GotConsent(request)
  }

  /** A code is handed out exactly when its last save is unexpired, was not saved as
      used, and no earlier call got it since; the record is the one saved. */
  lemma CodeAnswered(calls: seq<Call>, value: string, now: Instant)
    ensures NeverSaved(calls, CodeKey(HashSecret(value))) ==> Next(calls, ConsumeCode(value, now)) == Failed(NotFound)
    ensures forall j: nat :: LastSave(calls, j, CodeKey(HashSecret(value))) ==> Next(calls, ConsumeCode(value, now)) == CodeReply(calls, j, now)
  {
    var key := CodeKey(HashSecret(value));
    if NeverSaved(calls, key) {
      NothingStored(calls, key);
    }
    forall j: nat | LastSave(calls, j, key) ensures Next(calls, ConsumeCode(value, now)) == CodeReply(calls, j, now) {
      CodeRecord(calls, j, key.hash);
    }
  }

  /** A refresh token likewise, and only while no call has revoked it or its family;
      expiry and revocation are told apart from use, and come first. */
  lemma TokenAnswered(calls: seq<Call>, value: string, now: Instant)
    ensures NeverSaved(calls, TokenKey(HashSecret(value))) ==> Next(calls, ConsumeToken(value, now)) == Failed(NotFound)
    ensures forall j: nat :: LastSave(calls, j, TokenKey(HashSecret(value))) ==> Next(calls, ConsumeToken(value, now)) == TokenReply(calls, j, now)
  {
    var key := TokenKey(HashSecret(value));
    if NeverSaved(calls, key) {
      NothingStored(calls, key);
    }
    forall j: nat | LastSave(calls, j, key) ensures Next(calls, ConsumeToken(value, now)) == TokenReply(calls, j, now) {
      TokenRecord(calls, j, key.hash);
    }
  }

  /** A consent entry is handed out once after its last save, and only before it expires. */
  lemma ConsentAnswered(calls: seq<Call>, value: string, now: Instant)
    ensures NeverSaved(calls, ConsentKey(HashSecret(value))) ==> Next(calls, ConsumeConsent(value, now)) == Failed(NotFound)
    ensures forall j: nat :: LastSave(calls, j, ConsentKey(HashSecret(value))) ==> Next(calls, ConsumeConsent(value, now)) == ConsentReply(calls, j, now)
  {
    var key := ConsentKey(HashSecret(value));
    if NeverSaved(calls, key) {
      NothingStored(calls, key);
    }
    forall j: nat | LastSave(calls, j, key) ensures Next(calls, ConsumeConsent(value, now)) == ConsentReply(calls, j, now) {
      ConsentRecord(calls, j, key.hash);
    }
  }

  /** A session reads as its last save. */
  lemma SessionAnswered(calls: seq<Call>, subject: string)
    ensures NeverSaved(calls, SessionKey(subject)) ==> Next(calls, GetSession(subject)) == Failed(NotFound)
    ensures forall j: nat :: LastSave(calls, j, SessionKey(subject)) ==> Next(calls, GetSession(subject)) == GotSession(calls[j].session)
  {
    var key := SessionKey(subject);
    if NeverSaved(calls, key) {
      NothingStored(calls, key);
    }
    forall j: nat | LastSave(calls, j, key) ensures Next(calls, GetSession(subject)) == GotSession(calls[j].session) {
      SessionRecord(calls, j, subject);
    }
  }

  /** A save always succeeds, and a revocation exactly when its token was ever saved. */
  lemma OthersAnswered(calls: seq<Call>, call: Call)
    ensures call.SaveCode? || call.SaveToken? || call.SaveConsent? || call.SaveSession? ==> Next(calls, call) == Done
    ensures call.RevokeToken? || call.RevokeFamily? ==>
      Next(calls, call) == if NeverSaved(calls, TokenKey(HashSecret(call.value))) then Failed(NotFound) else Done
  {
    if call.RevokeToken? || call.RevokeFamily? {
      var key := TokenKey(HashSecret(call.value));
      if NeverSaved(calls, key) {
        NothingStored(calls, key);
      } else {
        var j := SomeLastSave(calls, key);
        TokenRecord(calls, j, key.hash);
      }
    }
  }
}
