/**
 * lbutils/view.py: the older copies of two request helpers. `get_client_ip`
 * is the same text as in views.py and is `Views.GetClientIp`;
 * `request_get_next` is written as a chain of ifs instead of `or`.
 */
module View {
  import opened Python
  import Views

  /** `request_get_next`: each source is consulted only while the ones before
      it are falsy, which gives the same value as the `or` chain of views.py. */
  method RequestGetNext(request: Views.Request, defaultNext: Value) returns (next: Value)
    ensures next == Views.RequestGetNext(request, defaultNext)
  {
    next := Get(request.post, "next");
    if !Truthy(next) {
      next := Get(request.get, "next");
    }
    if !Truthy(next) {
      next := Get(request.meta, "HTTP_REFERER");
    }
    if !Truthy(next) {
      next := defaultNext;
    }
  }
}
