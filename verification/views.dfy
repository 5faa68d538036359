/**
 * lbutils/views.py: small request helpers (view.py holds older copies of two
 * of them). A request is known by its `POST`, `GET` and `META` mappings; a
 * form of a list by what its `is_valid()` answers.
 */
module Views {
  import opened Strings
  import opened Python

  /** The parts of an `HttpRequest` the helpers read. */
  datatype Request = Request(post: map<string, string>, get: map<string, string>, meta: map<string, string>)

  // ----- get_pks (views.py:13-20) -----

  /** `[e for e in pks if e]`. */
  function KeepTruthy(pks: seq<Value>): (r: seq<Value>)
    ensures |r| <= |pks|
    ensures forall i :: 0 <= i < |r| ==> Truthy(r[i])
    decreases |pks|
  {
    if |pks| == 0 then []
    else (if Truthy(pks[0]) then [pks[0]] else []) + KeepTruthy(pks[1..])
  }

  /** The kept values are exactly the truthy ones of the list. */
  lemma {:induction false} KeepTruthyMembers(pks: seq<Value>)
    ensures forall x :: x in KeepTruthy(pks) <==> x in pks && Truthy(x)
    decreases |pks|
  {
    if |pks| > 0 {
      KeepTruthyMembers(pks[1..]);
      assert pks == [pks[0]] + pks[1..];
    }
  }

  /** `get_pks(qdict, k)`: the values listed under `k` without the empty ones,
      or `[]` when `qdict` has no `getlist` (`None` here). A QueryDict gives
      `[]` for a missing key. */
  function GetPks(qdict: Option<map<string, seq<Value>>>, k: string): (r: seq<Value>)
    ensures qdict.None? ==> r == []
    ensures qdict.Some? && k !in qdict.value ==> r == []
    ensures qdict.Some? && k in qdict.value ==> r == KeepTruthy(qdict.value[k])
  {
    match qdict
    case None => []
    case Some(m) => if k in m then KeepTruthy(m[k]) else []
  }

  /** Filtering keeps order: it distributes over concatenation. */
  lemma {:induction false} KeepTruthyAppend(a: seq<Value>, b: seq<Value>)
    ensures KeepTruthy(a + b) == KeepTruthy(a) + KeepTruthy(b)
    decreases |a|
  {
    if |a| == 0 {
      assert a + b == b;
    } else {
      KeepTruthyAppend(a[1..], b);
      assert (a + b)[1..] == a[1..] + b;
    }
  }

  /** A list without empty values passes unchanged. */
  lemma {:induction false} KeepTruthyAll(pks: seq<Value>)
    requires forall i :: 0 <= i < |pks| ==> Truthy(pks[i])
    ensures KeepTruthy(pks) == pks
    decreases |pks|
  {
    if |pks| > 0 {
      KeepTruthyAll(pks[1..]);
      assert [pks[0]] + pks[1..] == pks;
    }
  }

  /** Filtering twice is filtering once. */
  lemma KeepTruthyIdempotent(pks: seq<Value>)
    ensures KeepTruthy(KeepTruthy(pks)) == KeepTruthy(pks)
  {
    KeepTruthyAll(KeepTruthy(pks));
  }

  /** Each truthy value is kept as many times as it occurs. */
  lemma {:induction false} KeepTruthyCounts(pks: seq<Value>)
    ensures forall x :: Truthy(x) ==> multiset(KeepTruthy(pks))[x] == multiset(pks)[x]
    ensures forall x :: !Truthy(x) ==> multiset(KeepTruthy(pks))[x] == 0
    decreases |pks|
  {
    if |pks| > 0 {
      KeepTruthyCounts(pks[1..]);
      assert pks == [pks[0]] + pks[1..];
    }
  }

  // ----- request_get_next (views.py:23-32, view.py:8-16) -----

  /** `POST.next or GET.next or META.HTTP_REFERER or default_next`. */
  function RequestGetNext(request: Request, defaultNext: Value): (r: Value)
    ensures var post := Get(request.post, "next");
      var get := Get(request.get, "next");
      var referer := Get(request.meta, "HTTP_REFERER");
      && (Truthy(post) ==> r == post)
      && (!Truthy(post) && Truthy(get) ==> r == get)
      && (!Truthy(post) && !Truthy(get) && Truthy(referer) ==> r == referer)
      && (!Truthy(post) && !Truthy(get) && !Truthy(referer) ==> r == defaultNext)
  {
    PyOr(PyOr(PyOr(Get(request.post, "next"), Get(request.get, "next")),
              Get(request.meta, "HTTP_REFERER")),
         defaultNext)
  }

  /** The result is truthy whenever any of the four is. */
  lemma RequestGetNextTruthy(request: Request, defaultNext: Value)
    ensures Truthy(RequestGetNext(request, defaultNext)) <==>
              Truthy(Get(request.post, "next")) || Truthy(Get(request.get, "next"))
              || Truthy(Get(request.meta, "HTTP_REFERER")) || Truthy(defaultNext)
  {
  }

  // ----- get_client_ip (views.py:73-79, view.py:19-25) -----

  /** The text before the first comma of a non-empty `X-Forwarded-For`,
      untrimmed; otherwise `REMOTE_ADDR`, which may be missing. */
  function GetClientIp(meta: map<string, string>): (r: Value)
    ensures var xff := Get(meta, "HTTP_X_FORWARDED_FOR");
      && (Truthy(xff) ==>
            && r.Str? && StartsWith(xff.s, r.s) && ',' !in r.s
            && (r.s == xff.s || xff.s[|r.s|] == ','))
      && (!Truthy(xff) ==> r == Get(meta, "REMOTE_ADDR"))
  {
    var xff := Get(meta, "HTTP_X_FORWARDED_FOR");
    if Truthy(xff) then
      SplitFirst(xff.s, ',');
      Str(Split(xff.s, ',')[0])
    else Get(meta, "REMOTE_ADDR")
  }

  /** A proxy chain `client, proxy1, proxy2` yields the client. */
  lemma GetClientIpChain(meta: map<string, string>, client: string, proxies: string)
    requires client != "" && ',' !in client
    requires "HTTP_X_FORWARDED_FOR" in meta && meta["HTTP_X_FORWARDED_FOR"] == client + "," + proxies
    ensures GetClientIp(meta) == Str(client)
  {
    SplitPrefix(client, proxies, ',');
    assert client + "," + proxies == client + ([','] + proxies);
  }

  // ----- forms_is_valid (views.py:90-94, form.py:17-21) -----

  /** `forms_is_valid(forms)`, where `valid[i]` is what the `i`-th form's
      `is_valid()` answers and `calls` counts the calls made: `and` stops
      calling once a form is invalid. */
  method FormsIsValid(valid: seq<bool>) returns (ok: bool, calls: nat)
    ensures ok <==> forall i :: 0 <= i < |valid| ==> valid[i]
    ensures ok ==> calls == |valid|
    ensures !ok ==> 1 <= calls <= |valid| && !valid[calls - 1]
                    && forall i :: 0 <= i < calls - 1 ==> valid[i]
  {
    ok, calls := true, 0;
    for i := 0 to |valid|
      invariant ok <==> forall j :: 0 <= j < i ==> valid[j]
      invariant ok ==> calls == i
      invariant !ok ==> 1 <= calls <= i && !valid[calls - 1]
                        && forall j :: 0 <= j < calls - 1 ==> valid[j]
    {
      if ok {
        calls := calls + 1;
        ok := valid[i];
      }
    }
  }
}
