/** Each user's own index of sessions always agrees with the record of open sessions. */
module ProtocolIndex {
  import opened Common
  import opened Sessions
  import opened Protocol

  /** Every user's index lists exactly the user's open sessions and where they run. */
  ghost predicate IndexAgrees(s: System) {
    Indexed(s.accounts, s.open)
  }

  ghost predicate Indexed(accounts: map<Text, Account>, open: Book) {
    && (forall u :: u in accounts ==> accounts[u].active == Places(open, u))
    && (forall u :: u !in accounts ==> SessionsOf(open, u) == map[])
  }

  lemma OneUserIndexed(accounts: map<Text, Account>, open: Book, user: Text, now: map<Text, Account>, openNow: Book)
    requires Indexed(accounts, open) && user in accounts && now.Keys == accounts.Keys
    requires forall u :: u != user ==> SessionsOf(openNow, u) == SessionsOf(open, u)
    requires forall u :: u in accounts && u != user ==> now[u] == accounts[u]
    requires now[user].active == Places(openNow, user)
    ensures Indexed(now, openNow)
  {
  }

  lemma WithSessionPlaces(open: Book, user: Text, name: Text, info: Info)
    ensures Places(WithSession(open, user, name, info), user) == Places(open, user)[name := info.nodeAddress]
    ensures forall u :: u != user ==> SessionsOf(WithSession(open, user, name, info), u) == SessionsOf(open, u)
  {
  }

  lemma WithoutSessionPlaces(open: Book, user: Text, name: Text)
    ensures Places(WithoutSession(open, user, name), user) == Places(open, user) - {name}
    ensures forall u :: u != user ==> SessionsOf(WithoutSession(open, user, name), u) == SessionsOf(open, u)
  {
  }

  lemma WithStatusPlaces(open: Book, user: Text, name: Text, status: SessionStatus)
    ensures Places(WithStatus(open, user, name, status), user) == Places(open, user)
    ensures forall u :: u != user ==> SessionsOf(WithStatus(open, user, name, status), u) == SessionsOf(open, u)
  {
  }

  lemma SendKeepsIndex(s: System, a: Text, u: Text)
    requires IndexAgrees(s) && Enabled(s, SendStart(a, u))
    ensures IndexAgrees(After(s, SendStart(a, u)))
  {
    WithSessionPlaces(s.open, u, s.sites[a].pending[u].session, NewInfo(s, a, u));
    OneUserIndexed(s.accounts, s.open, u, AccountsAfter(s, SendStart(a, u)), OpenAfter(s, SendStart(a, u)));
  }

  lemma ResultKeepsIndex(s: System, e: Step)
    requires IndexAgrees(s) && e.ResultArrives? && Enabled(s, e)
    ensures IndexAgrees(After(s, e))
  {
    var r := e.result;
    if r.user in s.accounts {
      WithStatusPlaces(s.open, r.user, r.session, StatusOf(r.status));
      OneUserIndexed(s.accounts, s.open, r.user, s.accounts, OpenAfter(s, e));
    }
  }

  lemma CloseKeepsIndex(s: System, e: Step)
    requires IndexAgrees(s) && e.CloseArrives? && Enabled(s, e)
    ensures IndexAgrees(After(s, e))
  {
    var r := e.result;
    if Drops(s, e) {
      WithoutSessionPlaces(s.open, r.user, r.session);
      OneUserIndexed(s.accounts, s.open, r.user, AccountsAfter(s, e), OpenAfter(s, e));
    }
  }

  lemma DestroyKeepsIndex(s: System, u: Text, n: Text)
    requires IndexAgrees(s) && Enabled(s, Destroy(u, n))
    ensures IndexAgrees(After(s, Destroy(u, n)))
  {
    WithStatusPlaces(s.open, u, n, Closing);
    WithoutSessionPlaces(s.open, u, n);
    OneUserIndexed(s.accounts, s.open, u, AccountsAfter(s, Destroy(u, n)), OpenAfter(s, Destroy(u, n)));
  }

  lemma StepKeepsIndex(s: System, e: Step)
    requires IndexAgrees(s) && Enabled(s, e)
    ensures IndexAgrees(After(s, e))
  {
    match e
    case SendStart(a, u) => SendKeepsIndex(s, a, u);
    case ResultArrives(a, r) => ResultKeepsIndex(s, e);
    case CloseArrives(a, r) => CloseKeepsIndex(s, e);
    case Destroy(u, n) => DestroyKeepsIndex(s, u, n);
    case _ =>
  }

  /** Whatever is created, answered, destroyed, lost or restarted. */
  lemma {:induction false} RunKeepsIndex(s: System, es: seq<Step>)
    requires IndexAgrees(s) && Run(s, es)
    ensures IndexAgrees(Final(s, es))
    decreases |es|
  {
    if es != [] {
      StepKeepsIndex(s, es[0]);
      RunKeepsIndex(After(s, es[0]), es[1..]);
    }
  }
}
