/** The run prefix: every key a client call names is mapped under it. */
module RunPrefix {
  import opened Wrappers
  import opened Lex
  import opened Pages
  import opened Store

  predicate HasSlash(prefix: Key) {
    prefix != "" && prefix[|prefix| - 1] == '/'
  }

  function Normalised(prefix: Key): Key {
    if HasSlash(prefix) then prefix else prefix + "/"
  }

  function TrimSlash(key: Key): Key {
    if key != "" && key[0] == '/' then key[1..] else key
  }

  function JoinPrefix(prefix: Key, key: Key): Key {
    var k := TrimSlash(key);
    if prefix == "" then k
    else
      var p := Normalised(prefix);
      if p <= k then k else p + k
  }

  /** A prefix that ends in a slash stays as it is, any other gains one: the shortest extension that ends in a slash. */
  lemma NormalisedIs(prefix: Key, stem: Key, ext: Key)
    ensures Normalised(stem + "/") == stem + "/"
    ensures prefix == "" || prefix[|prefix| - 1] != '/' ==> Normalised(prefix) == prefix + "/"
    ensures prefix <= ext && ext != "" && ext[|ext| - 1] == '/' ==> |Normalised(prefix)| <= |ext|
    ensures Normalised(prefix) == prefix || Normalised(prefix) == prefix + "/"
    ensures Normalised(prefix)[|Normalised(prefix)| - 1] == '/'
  {
    assert (stem + "/")[|stem|] == '/';
    if prefix <= ext && |ext| == |prefix| {
      assert ext == prefix;
    }
  }

  /** What the key becomes, the prefix written with or without its slash: one leading slash of the key is dropped, and a key
      that then lies under the prefix is left alone. */
  lemma JoinIs(stem: Key, key: Key)
    ensures JoinPrefix(stem + "/", "/" + key) == if stem + "/" <= key then key else stem + "/" + key
    ensures key == "" || key[0] != '/' ==> JoinPrefix(stem + "/", key) == JoinPrefix(stem + "/", "/" + key)
    ensures stem != "" && stem[|stem| - 1] != '/' ==> JoinPrefix(stem, key) == JoinPrefix(stem + "/", key)
    ensures JoinPrefix("", "/" + key) == key
    ensures key == "" || key[0] != '/' ==> JoinPrefix("", key) == key
  {
    hide Normalised, TrimSlash;
    NormalisedIs(stem, stem, stem);
    SlashTrimmed(key);
  }

  lemma SlashTrimmed(key: Key)
    ensures TrimSlash("/" + key) == key
    ensures key == "" || key[0] != '/' ==> TrimSlash(key) == key
  {
    assert ("/" + key)[1..] == key;
  }

  /** The result lies under the prefix, whatever the key is. */
  lemma UnderPrefix(prefix: Key, key: Key)
    requires prefix != ""
    ensures Normalised(prefix) <= JoinPrefix(prefix, key)
  {
    var p, k := Normalised(prefix), TrimSlash(key);
    assert (p + k)[..|p|] == p;
  }

  /** Keys under a prefix that does not start with a slash are mapped to themselves. */
  lemma PrefixedIsFixed(prefix: Key, key: Key)
    requires prefix != "" && prefix[0] != '/' && Normalised(prefix) <= key
    ensures JoinPrefix(prefix, key) == key
  {
  }

  /** Only two keys of the same form are identified: the leading slash and the prefix itself are optional. */
  lemma SameObject(prefix: Key, key: Key, key': Key)
    requires prefix != ""
    ensures JoinPrefix(prefix, key) == JoinPrefix(prefix, key')
       <==> Bare(prefix, TrimSlash(key)) == Bare(prefix, TrimSlash(key'))
  {
    BareKey(prefix, key);
    BareKey(prefix, key');
    var p, b, b' := Normalised(prefix), Bare(prefix, TrimSlash(key)), Bare(prefix, TrimSlash(key'));
    assert (p + b)[|p|..] == b && (p + b')[|p|..] == b';
  }

  /** The key without the prefix. */
  function Bare(prefix: Key, key: Key): Key {
    var p := Normalised(prefix);
    if p <= key then key[|p|..] else key
  }

  lemma BareKey(prefix: Key, key: Key)
    requires prefix != ""
    ensures JoinPrefix(prefix, key) == Normalised(prefix) + Bare(prefix, TrimSlash(key))
  {
  }

  // ----- the prefix is added exactly once -----

  /** When joining twice is the same as joining once. */
  predicate JoinsOnce(prefix: Key, key: Key) {
    if prefix == "" then !("//" <= key)
    else prefix[0] != '/' || (prefix == "/" && !("///" <= key))
  }

  /** Joining is idempotent exactly on these prefixes and keys. */
  lemma IdempotentIff(prefix: Key, key: Key)
    ensures JoinPrefix(prefix, JoinPrefix(prefix, key)) == JoinPrefix(prefix, key) <==> JoinsOnce(prefix, key)
  {
  }

  /** A key the condition excludes: joined once it loses one slash, joined twice it loses both. */
  lemma NotIdempotent()
    ensures JoinPrefix("", "//a") == "/a" && JoinPrefix("", "/a") == "a"
  {
  }

  // ----- a client behind the prefix -----

  /** How a client maps the keys it is given: the in-memory client as they are, the AWS client under its run prefix. */
  datatype Naming = AsIs | Under(prefix: Key)

  /** A client as the tool's code sees it: the store behind it is addressed by mapped keys. */
  class S3Client {
    const naming: Naming
    const api: Client

    constructor (naming: Naming, api: Client)
      ensures this.naming == naming && this.api == api
    {
      this.naming, this.api := naming, api;
    }

    function FullKey(key: Key): (k: Key)
      ensures naming.AsIs? ==> k == key
    {
      match naming
      case AsIs => key
      case Under(prefix) => JoinPrefix(prefix, key)
    }

    /** A key listed under p is sent as it was listed. */
    ghost predicate Faithful(p: Key) {
      forall k :: p <= k ==> FullKey(k) == k
    }

    /** The keys sent for keys listed under p all lie under this one. */
    ghost function Region(p: Key): Key {
      if Faithful(p) then p
      else if naming.Under? && naming.prefix != "" then Normalised(naming.prefix)
      else ""
    }

    lemma SentInRegion(p: Key, k: Key)
      requires p <= k
      ensures Region(p) <= FullKey(k)
    {
      if !Faithful(p) && naming.Under? && naming.prefix != "" {
        UnderPrefix(naming.prefix, k);
      }
    }

    method Put(key: Key, body: Body, size: int) returns (err: Option<Error>)
      modifies api
      ensures (api.View(), err) == WriteStep(old(api.View()), PutOp, FullKey(key), body, size)
    {
      err := api.Put(FullKey(key), body, size);
    }

    method MultipartUpload(key: Key, body: Body) returns (err: Option<Error>)
      modifies api
      ensures (api.View(), err) == WriteStep(old(api.View()), MultipartOp, FullKey(key), body, -1)
    {
      err := api.MultipartUpload(FullKey(key), body);
    }

    method Get(key: Key) returns (r: Result<Bytes, Error>)
      modifies api
      ensures api.View() == Disarm(old(api.View()), GetOp)
      ensures GetOp !in old(api.fail) ==>
                r == if FullKey(key) in old(api.objects) then Ok(old(api.objects)[FullKey(key)]) else Err(NotFound)
      ensures GetOp in old(api.fail) ==> r == Err(old(api.fail)[GetOp])
    {
      r := api.Get(FullKey(key));
    }

    method Delete(key: Key) returns (err: Option<Error>)
      modifies api
      ensures (api.View(), err) == DeleteStep(old(api.View()), FullKey(key))
    {
      err := api.Delete(FullKey(key));
    }

    method Copy(src: Key, dst: Key) returns (err: Option<Error>)
      modifies api
      ensures (api.View(), err) == CopyStep(old(api.View()), FullKey(src), FullKey(dst))
    {
      err := api.Copy(FullKey(src), FullKey(dst));
    }

    method List(under: Key, delim: string, token: Key, maxKeys: int) returns (r: Result<Page, Error>)
      modifies api
      ensures (api.View(), r) == ListStep(old(api.View()), FullKey(under), delim, token, maxKeys)
    {
      r := api.List(FullKey(under), delim, token, maxKeys);
    }
  }

  datatype Call =
    | CallPut(key: Key, body: Body, size: int)
    | CallMultipart(key: Key, body: Body)
    | CallGet(key: Key)
    | CallDelete(key: Key)
    | CallCopy(src: Key, dst: Key)
    | CallList(under: Key, delim: string, token: Key, maxKeys: int)

  /** Everything outside prefix p is as it was. */
  ghost predicate Untouched(o: map<Key, Bytes>, o': map<Key, Bytes>, p: Key) {
    forall k :: !(p <= k) ==> SameAt(o, o', k)
  }

  lemma UntouchedTransitive(o: map<Key, Bytes>, o1: map<Key, Bytes>, o2: map<Key, Bytes>, p: Key)
    requires Untouched(o, o1, p) && Untouched(o1, o2, p)
    ensures Untouched(o, o2, p)
  {
    forall k | !(p <= k) ensures SameAt(o, o2, k) {
      assert SameAt(o, o1, k) && SameAt(o1, o2, k);
    }
  }

  method Perform1(c: S3Client, call: Call)
    requires c.naming.Under? && c.naming.prefix != ""
    modifies c.api
    ensures Untouched(old(c.api.objects), c.api.objects, Normalised(c.naming.prefix))
  {
    hide Normalised, JoinPrefix;
    match call
    case CallPut(key, body, size) =>
      UnderPrefix(c.naming.prefix, key);
      var _ := c.Put(key, body, size);
    case CallMultipart(key, body) =>
      UnderPrefix(c.naming.prefix, key);
      var _ := c.MultipartUpload(key, body);
    case CallGet(key) =>
      var _ := c.Get(key);
    case CallDelete(key) =>
      UnderPrefix(c.naming.prefix, key);
      var _ := c.Delete(key);
    case CallCopy(src, dst) =>
      UnderPrefix(c.naming.prefix, dst);
      var _ := c.Copy(src, dst);
    case CallList(under, delim, token, maxKeys) =>
      var _ := c.List(under, delim, token, maxKeys);
  }

  /** Any run of calls through a client with a run prefix leaves the objects outside the prefix untouched. */
  method RunCalls(c: S3Client, calls: seq<Call>)
    requires c.naming.Under? && c.naming.prefix != ""
    modifies c.api
    ensures Untouched(old(c.api.objects), c.api.objects, Normalised(c.naming.prefix))
  {
    for i := 0 to |calls|
      invariant Untouched(old(c.api.objects), c.api.objects, Normalised(c.naming.prefix))
    {
      ghost var before := c.api.objects;
      Perform1(c, calls[i]);
      UntouchedTransitive(old(c.api.objects), before, c.api.objects, Normalised(c.naming.prefix));
    }
  }

  // ----- what cleanup lists and deletes behind the prefix -----

  /** The cleanup of the run prefix lists the whole bucket without a prefix, exactly the prefix when it does not start
      with a slash, and a deeper prefix when it does. */
  lemma CleanupListsUnder(prefix: Key)
    ensures JoinPrefix(prefix, Normalised(prefix))
         == if prefix == "" then "" else if prefix[0] != '/' then Normalised(prefix)
            else Normalised(prefix) + Normalised(prefix)[1..]
  {
    var p := Normalised(prefix);
    if prefix == "" {
      assert p == "/";
    } else if prefix[0] != '/' {
      PrefixedIsFixed(prefix, p);
    } else {
      assert p[0] == '/';
    }
  }

  /** The cleanup's listing covers the object a key names exactly when the prefix does not start with a slash,
      or the key, stripped of slash and prefix, repeats the prefix. */
  lemma CleanupCoversIff(prefix: Key, key: Key)
    requires prefix != ""
    ensures JoinPrefix(prefix, Normalised(prefix)) <= JoinPrefix(prefix, key)
       <==> prefix[0] != '/' || Normalised(prefix)[1..] <= Bare(prefix, TrimSlash(key))
  {
    CleanupListsUnder(prefix);
    BareKey(prefix, key);
    var p := Normalised(prefix);
    var q, rest := p[1..], Bare(prefix, TrimSlash(key));
    assert p <= p + rest;
    if prefix[0] == '/' {
      SamePrefix(p, q, rest);
    }
  }

  lemma SamePrefix(p: Key, q: Key, rest: Key)
    ensures p + q <= p + rest <==> q <= rest
  {
    if p + q <= p + rest {
      assert q == (p + q)[|p|..] == (p + rest)[|p|..|p + q|] == rest[..|q|];
    }
    if q <= rest {
      assert (p + rest)[..|p + q|] == p + rest[..|q|];
    }
  }

  /** With prefix "/p", the object put under "a" is not among those its cleanup lists. */
  lemma SlashPrefixMisses()
    ensures JoinPrefix("/p", "a") == "/p/a" && JoinPrefix("/p", Normalised("/p")) == "/p/p/"
    ensures !(JoinPrefix("/p", Normalised("/p")) <= JoinPrefix("/p", "a"))
  {
    assert Normalised("/p") == "/p/";
    assert "/p/" + "p/" == "/p/p/";
    assert "/p/p/"[3] != "/p/a"[3];
  }

  /** A key the cleanup lists is deleted under its own name exactly under this condition. */
  lemma DeletesListedIff(prefix: Key, k: Key)
    requires JoinPrefix(prefix, Normalised(prefix)) <= k
    ensures JoinPrefix(prefix, k) == k
       <==> if prefix == "" then !("/" <= k) else prefix[0] != '/' || (prefix == "/" && !("//" <= k))
  {
    var p, t := Normalised(prefix), TrimSlash(k);
    CleanupListsUnder(prefix);
    if prefix == "" {
      assert "/" <= k <==> k != "" && k[0] == '/';
    } else if prefix[0] != '/' {
      PrefixedIsFixed(prefix, k);
    } else {
      assert p[0] == '/' && k[0] == p[0] && t == k[1..];
      if prefix == "/" {
        assert p == "/";
        assert "/" <= t <==> "//" <= k;
        assert "/" + t == k;
      } else {
        assert |p| >= 2;
      }
    }
  }

  /** So all of a cleanup's deletes address the keys it listed exactly for a run prefix that is not empty and does not
      start with a slash. */
  lemma CleanupFaithfulIff(c: S3Client)
    requires c.naming.Under?
    ensures c.Faithful(c.FullKey(Normalised(c.naming.prefix))) <==> c.naming.prefix != "" && c.naming.prefix[0] != '/'
  {
    var prefix := c.naming.prefix;
    var target := JoinPrefix(prefix, Normalised(prefix));
    CleanupListsUnder(prefix);
    if prefix != "" && prefix[0] != '/' {
      forall k | target <= k ensures c.FullKey(k) == k {
        PrefixedIsFixed(prefix, k);
      }
    } else {
      var k := if prefix == "" then "/" else if prefix == "/" then "//" else target;
      assert target <= k;
      DeletesListedIff(prefix, k);
      assert c.FullKey(k) != k;
    }
  }

  /** Behind the prefix "/p" the cleanup lists "/p/p/x" and asks to delete "/p/p/p/x". */
  lemma SlashPrefixMisdeletes()
    ensures JoinPrefix("/p", Normalised("/p")) <= "/p/p/x"
    ensures JoinPrefix("/p", "/p/p/x") == "/p/p/p/x"
  {
    SlashPrefixMisses();
    assert "/p/p/x" == "/p/p/" + "x";
    var t := TrimSlash("/p/p/x");
    assert t == "p/p/x";
    assert Normalised("/p") == "/p" + "/" == "/p/";
    assert "/p/" + t == "/p/p/p/x";
  }
}
