/** tools/discover_container_images.py: which values of a document name a container image, how each
    one is filed, and the inventory that is built from them. */
module ImageDiscovery {
  import opened Images
  import opened Json
  import opened Ordering
  import opened Text

  // ---- values that name an image -----------------------------------------------------------

  const IMAGE_VALUE_KEYS := {"image", "imageName", "initImage", "containerImage", "imageRef"}

  /** An image reference and the place it was found. */
  datatype Reference = Reference(image: string, source: string)

  predicate NonEmptyText(value: Json) {
    value.Str? && value.text != ""
  }

  function TrimSlashesRight(s: string): string {
    if s != "" && s[|s| - 1] == '/' then TrimSlashesRight(s[..|s| - 1]) else s
  }

  function TrimSlashesLeft(s: string): string {
    if s != "" && s[0] == '/' then TrimSlashesLeft(s[1..]) else s
  }

  /** A repository by digest or, failing that, by tag. */
  function Joined(repository: string, digest: Json, tag: Json): Option<string> {
    if NonEmptyText(digest) then Some(repository + "@" + digest.text)
    else if NonEmptyText(tag) then Some(repository + ":" + tag.text)
    else None
  }

  /** What the value of an image key names: itself, or the parts it spells out. */
  function NamedImage(value: Json): Option<string> {
    match value
    case Str(text) => Some(text)
    case Obj(_) =>
      var repository, registry := Field(value, "repository"), Field(value, "registry");
      if !repository.Str? then None
      else
        var full := if NonEmptyText(registry)
                    then TrimSlashesRight(registry.text) + "/" + TrimSlashesLeft(repository.text)
                    else repository.text;
        Joined(full, Field(value, "digest"), Field(value, "tag"))
    case _ => None
  }

  /** What an entry of a Kustomize `images` list names. */
  function ReplacementImage(value: Json): Option<string> {
    if !value.Obj? then None
    else
      var repository := if "newName" in value.fields then value.fields["newName"] else Field(value, "name");
      if !repository.Str? then None
      else Joined(repository.text, Field(value, "digest"), Field(value, "newTag"))
  }

  /** The two walks over a parsed document: every document for image values, a workflow also for the
      containers that it names by text. */
  datatype Scan = ImageValues | ContainerValues

  const DOCKER_SCHEME := "docker://"

  /** What an entry of a workflow names: a container, or the image of an action. */
  function ContainerImage(key: string, value: Json): Option<string> {
    if key == "container" && value.Str? then Some(value.text)
    else if key == "uses" && value.Str? && StartsWith(value.text, DOCKER_SCHEME) then Some(value.text[|DOCKER_SCHEME|..])
    else None
  }

  /** What an entry of an object names itself. */
  function OwnImage(scan: Scan, key: string, value: Json): Option<string> {
    match scan
    case ImageValues => if key in IMAGE_VALUE_KEYS then NamedImage(value) else None
    case ContainerValues => ContainerImage(key, value)
  }

  /** The list of replacements that an entry holds. */
  predicate HoldsReplacements(scan: Scan, key: string, value: Json) {
    scan.ImageValues? && key == "images" && value.Arr?
  }

  // ---- the walk ----------------------------------------------------------------------------

  function KeyAt(at: string, key: string): string {
    at + "." + key
  }

  function ItemAt(at: string, index: nat): string {
    at + "[" + NatText(index) + "]"
  }

  function Yielded(image: Option<string>, at: string): seq<Reference> {
    if image.Some? then [Reference(image.value, at)] else []
  }

  function Replacements(items: seq<Json>, n: nat, at: string): seq<Reference>
    requires n <= |items|
  {
    if n == 0 then []
    else Replacements(items, n - 1, at) + Yielded(ReplacementImage(items[n - 1]), ItemAt(at, n - 1))
  }

  /** Everything found in a value, in the order it is found (entries of an object by key). */
  function Walk(scan: Scan, value: Json, at: string): seq<Reference>
    decreases value, 1, 0
  {
    match value
    case Obj(fields) => WalkEntries(scan, value, TextsInOrder(fields.Keys), at)
    case Arr(items) => WalkItems(scan, items, |items|, at)
    case _ => []
  }

  function WalkEntries(scan: Scan, value: Json, keys: seq<string>, at: string): seq<Reference>
    requires value.Obj? && forall k | k in keys :: k in value.fields
    decreases value, 0, |keys|
  {
    if keys == [] then []
    else
      var key := keys[|keys| - 1];
      assert key in keys;
      var child, childAt := value.fields[key], KeyAt(at, key);
      WalkEntries(scan, value, keys[..|keys| - 1], at)
      + Yielded(OwnImage(scan, key, child), childAt)
      + (if HoldsReplacements(scan, key, child) then Replacements(child.items, |child.items|, childAt) else [])
      + Walk(scan, child, childAt)
  }

  function WalkItems(scan: Scan, items: seq<Json>, n: nat, at: string): seq<Reference>
    requires n <= |items|
    decreases items, 0, n
  {
    if n == 0 then []
    else WalkItems(scan, items, n - 1, at) + Walk(scan, items[n - 1], ItemAt(at, n - 1))
  }

  // ---- what the walk finds, by paths -------------------------------------------------------

  datatype Step = Key(name: string) | Index(at: nat)

  function NodeAt(value: Json, path: seq<Step>): Option<Json> {
    if path == [] then Some(value)
    else match path[0]
      case Key(k) => if value.Obj? && k in value.fields then NodeAt(value.fields[k], path[1..]) else None
      case Index(i) => if value.Arr? && i < |value.items| then NodeAt(value.items[i], path[1..]) else None
  }

  function PathText(path: seq<Step>): string {
    if path == [] then ""
    else (if path[0].Key? then KeyAt("", path[0].name) else ItemAt("", path[0].at)) + PathText(path[1..])
  }

  /** The node at the path stands under a key that the scan looks for, or in an `images` list, and names
      the image. */
  ghost predicate NamesImage(scan: Scan, value: Json, path: seq<Step>, image: string) {
    && path != []
    && var node := NodeAt(value, path);
       && node.Some?
       && match path[|path| - 1]
          case Key(k) => OwnImage(scan, k, node.value) == Some(image)
          case Index(_) =>
            && scan.ImageValues? && |path| > 1 && path[|path| - 2] == Key("images")
            && ReplacementImage(node.value) == Some(image)
  }

  lemma {:induction false} InReplacements(items: seq<Json>, n: nat, at: string, r: Reference)
    requires n <= |items|
    ensures r in Replacements(items, n, at)
            <==> exists i :: 0 <= i < n && ReplacementImage(items[i]) == Some(r.image) && r.source == ItemAt(at, i)
  {
    hide ReplacementImage, ItemAt;
    if n == 0 {
    } else {
      InReplacements(items, n - 1, at, r);
    }
  }

  lemma {:induction false} InItems(scan: Scan, items: seq<Json>, n: nat, at: string, r: Reference)
    requires n <= |items|
    ensures r in WalkItems(scan, items, n, at) <==> exists i :: 0 <= i < n && r in Walk(scan, items[i], ItemAt(at, i))
  {
    hide Walk, ItemAt;
    if n == 0 {
    } else {
      InItems(scan, items, n - 1, at, r);
    }
  }

  /** What one entry contributes. */
  ghost predicate FromEntry(scan: Scan, key: string, child: Json, at: string, r: Reference) {
    || (OwnImage(scan, key, child) == Some(r.image) && r.source == at)
    || (HoldsReplacements(scan, key, child) && r in Replacements(child.items, |child.items|, at))
    || r in Walk(scan, child, at)
  }

  lemma {:induction false} InEntries(scan: Scan, value: Json, keys: seq<string>, at: string, r: Reference)
    requires value.Obj? && forall k | k in keys :: k in value.fields
    ensures r in WalkEntries(scan, value, keys, at)
            <==> exists k :: k in keys && FromEntry(scan, k, value.fields[k], KeyAt(at, k), r)
  {
    hide Walk, OwnImage, HoldsReplacements, Replacements, KeyAt;
    if keys == [] {
    } else {
      var before, key := keys[..|keys| - 1], keys[|keys| - 1];
      InEntries(scan, value, before, at, r);
      assert key in keys;
      assert forall k :: k in keys <==> k in before || k == key;
    }
  }

  lemma Associative(a: string, b: string, c: string)
    ensures a + (b + c) == (a + b) + c
  {
  }

  lemma StepInFront(at: string, step: Step)
    ensures at + (if step.Key? then KeyAt("", step.name) else ItemAt("", step.at))
            == if step.Key? then KeyAt(at, step.name) else ItemAt(at, step.at)
  {
  }

  lemma StepText(at: string, path: seq<Step>)
    requires path != []
    ensures at + PathText(path)
            == (if path[0].Key? then KeyAt(at, path[0].name) else ItemAt(at, path[0].at)) + PathText(path[1..])
  {
    hide KeyAt, ItemAt;
    StepInFront(at, path[0]);
    Associative(at, if path[0].Key? then KeyAt("", path[0].name) else ItemAt("", path[0].at), PathText(path[1..]));
  }

  lemma OneStepText(at: string, step: Step)
    ensures at + PathText([step]) == if step.Key? then KeyAt(at, step.name) else ItemAt(at, step.at)
  {
  }

  /** Everything the walk yields stands at a path of the document that names it. */
  lemma {:induction false} WalkSound(scan: Scan, value: Json, at: string, r: Reference) returns (path: seq<Step>)
    requires r in Walk(scan, value, at)
    ensures NamesImage(scan, value, path, r.image) && r.source == at + PathText(path)
    decreases value
  {
    hide OwnImage, ReplacementImage, PathText, KeyAt, ItemAt;
    if value.Arr? {
      InItems(scan, value.items, |value.items|, at, r);
      var i :| 0 <= i < |value.items| && r in Walk(scan, value.items[i], ItemAt(at, i));
      var rest := WalkSound(scan, value.items[i], ItemAt(at, i), r);
      path := [Index(i)] + rest;
      StepText(at, path);
    } else {
      var keys := TextsInOrder(value.fields.Keys);
      InEntries(scan, value, keys, at, r);
      var k :| k in keys && FromEntry(scan, k, value.fields[k], KeyAt(at, k), r);
      path := EntrySound(scan, value, k, at, r);
    }
  }

  lemma {:induction false} EntrySound(scan: Scan, value: Json, k: string, at: string, r: Reference) returns (path: seq<Step>)
    requires value.Obj? && k in value.fields && FromEntry(scan, k, value.fields[k], KeyAt(at, k), r)
    ensures NamesImage(scan, value, path, r.image) && r.source == at + PathText(path)
    decreases value, 0
  {
    hide OwnImage, ReplacementImage, PathText, KeyAt, ItemAt, Walk, Replacements;
    var child, childAt := value.fields[k], KeyAt(at, k);
    if r in Walk(scan, child, childAt) {
      var rest := WalkSound(scan, child, childAt, r);
      path := [Key(k)] + rest;
      StepText(at, path);
    } else if OwnImage(scan, k, child) == Some(r.image) && r.source == childAt {
      path := [Key(k)];
      assert path[1..] == [] && NodeAt(child, []) == Some(child);
      OneStepText(at, Key(k));
    } else {
      InReplacements(child.items, |child.items|, childAt, r);
      var i :| 0 <= i < |child.items| && ReplacementImage(child.items[i]) == Some(r.image) && r.source == ItemAt(childAt, i);
      path := [Key(k), Index(i)];
      StepText(at, path);
      assert path[1..] == [Index(i)];
      OneStepText(childAt, Index(i));
      assert [Index(i)][1..] == [] && NodeAt(child, [Index(i)]) == Some(child.items[i]);
    }
  }

  /** What an entry names itself, or in the list that it holds. */
  lemma EntryComplete(scan: Scan, value: Json, at: string, path: seq<Step>, image: string)
    requires NamesImage(scan, value, path, image) && path[0].Key? && (|path| == 1 || (|path| == 2 && path[1].Index?))
    ensures FromEntry(scan, path[0].name, value.fields[path[0].name], KeyAt(at, path[0].name), Reference(image, at + PathText(path)))
  {
    hide OwnImage, ReplacementImage, PathText, KeyAt, ItemAt, Replacements, Walk;
    var r, rest := Reference(image, at + PathText(path)), path[1..];
    var child, childAt := value.fields[path[0].name], KeyAt(at, path[0].name);
    StepText(at, path);
    assert NodeAt(value, path) == NodeAt(child, rest) && NodeAt(child, rest).Some?;
    if rest == [] {
      OneStepText(at, path[0]);
      assert path == [path[0]] && NodeAt(child, rest) == Some(child);
    } else {
      var i := rest[0].at;
      assert rest == [Index(i)] && rest[1..] == [] && NodeAt(child, rest) == Some(child.items[i]);
      OneStepText(childAt, Index(i));
      InReplacements(child.items, |child.items|, childAt, r);
    }
  }

  /** The first step of a path leads somewhere, and what is named further down is named from there. */
  lemma NamesBelow(scan: Scan, value: Json, path: seq<Step>, image: string)
    requires NamesImage(scan, value, path, image)
    ensures path[0].Index? ==> && value.Arr? && path[0].at < |value.items|
                               && NamesImage(scan, value.items[path[0].at], path[1..], image)
    ensures path[0].Key? ==> value.Obj? && path[0].name in value.fields
    ensures path[0].Key? && |path| > 1 && !(|path| == 2 && path[1].Index?)
            ==> NamesImage(scan, value.fields[path[0].name], path[1..], image)
  {
    hide OwnImage, ReplacementImage;
  }

  /** Nothing that a path names escapes the walk, at any depth. */
  lemma {:induction false} WalkComplete(scan: Scan, value: Json, at: string, path: seq<Step>, image: string)
    requires NamesImage(scan, value, path, image)
    ensures Reference(image, at + PathText(path)) in Walk(scan, value, at)
    decreases |path|
  {
    hide OwnImage, ReplacementImage, PathText, KeyAt, ItemAt, Replacements;
    var r := Reference(image, at + PathText(path));
    var rest := path[1..];
    NamesBelow(scan, value, path, image);
    assert path != [];
    hide NamesImage;
    StepText(at, path);
    if path[0].Index? {
      var i := path[0].at;
      WalkComplete(scan, value.items[i], ItemAt(at, i), rest, image);
      InItems(scan, value.items, |value.items|, at, r);
    } else {
      var k := path[0].name;
      var child, childAt := value.fields[k], KeyAt(at, k);
      if rest == [] || (|rest| == 1 && rest[0].Index?) {
        EntryComplete(scan, value, at, path, image);
      } else {
        WalkComplete(scan, child, childAt, rest, image);
      }
      assert FromEntry(scan, k, child, childAt, r);
      InEntries(scan, value, TextsInOrder(value.fields.Keys), at, r);
    }
  }

  /** Each walk yields exactly the values of the document that it looks for, each with its path. */
  lemma WalkExact(scan: Scan, value: Json, at: string, r: Reference)
    ensures r in Walk(scan, value, at) <==> exists path :: NamesImage(scan, value, path, r.image) && r.source == at + PathText(path)
  {
    hide NamesImage, Walk, PathText;
    if r in Walk(scan, value, at) {
      var path := WalkSound(scan, value, at, r);
    }
    if path :| NamesImage(scan, value, path, r.image) && r.source == at + PathText(path) {
      WalkComplete(scan, value, at, path, r.image);
    }
  }

  // ---- what an entry names, by its texts ---------------------------------------------------

  /** The object has this text, not empty, under the key. */
  predicate HasText(value: Json, key: string, text: string) {
    value.Obj? && key in value.fields && value.fields[key] == Str(text) && text != ""
  }

  predicate HasNoText(value: Json, key: string) {
    value.Obj? && (key in value.fields ==> !value.fields[key].Str? || value.fields[key].text == "")
  }

  /** The mark behind a repository: its digest, or without one its tag. */
  ghost predicate IsMark(value: Json, tagKey: string, mark: string) {
    || (exists digest :: HasText(value, "digest", digest) && mark == "@" + digest)
    || (HasNoText(value, "digest") && exists tag :: HasText(value, tagKey, tag) && mark == ":" + tag)
  }

  lemma JoinedIff(value: Json, tagKey: string, repository: string, image: string)
    requires value.Obj?
    ensures Joined(repository, Field(value, "digest"), Field(value, tagKey)) == Some(image)
            <==> exists mark :: IsMark(value, tagKey, mark) && image == repository + mark
  {
    var digest, tag := Field(value, "digest"), Field(value, tagKey);
    if NonEmptyText(digest) {
      assert HasText(value, "digest", digest.text) && IsMark(value, tagKey, "@" + digest.text);
      Associative(repository, "@", digest.text);
      assert !HasNoText(value, "digest");
    } else if NonEmptyText(tag) {
      assert HasText(value, tagKey, tag.text) && IsMark(value, tagKey, ":" + tag.text) && HasNoText(value, "digest");
      Associative(repository, ":", tag.text);
    }
  }

  /** The host without the slashes that end the registry, and the name without those that begin it. */
  predicate IsHost(registry: string, host: string) {
    host <= registry && (forall i | |host| <= i < |registry| :: registry[i] == '/') && (host == "" || host[|host| - 1] != '/')
  }

  predicate IsPathOf(repository: string, path: string) {
    && EndsWith(repository, path)
    && (forall i | 0 <= i < |repository| - |path| :: repository[i] == '/') && (path == "" || path[0] != '/')
  }

  lemma {:induction false} TrimmedRight(s: string, host: string)
    ensures IsHost(s, host) <==> host == TrimSlashesRight(s)
  {
    if s != "" && s[|s| - 1] == '/' {
      var shorter := s[..|s| - 1];
      TrimmedRight(shorter, host);
      if IsHost(s, host) {
        assert |host| < |s|;
        assert host <= shorter;
      }
      if IsHost(shorter, host) {
        assert shorter <= s && host <= s;
      }
    } else if IsHost(s, host) {
      assert |host| == |s|;
    }
  }

  lemma {:induction false} TrimmedLeft(s: string, path: string)
    ensures IsPathOf(s, path) <==> path == TrimSlashesLeft(s)
  {
    if s != "" && s[0] == '/' {
      var shorter := s[1..];
      TrimmedLeft(shorter, path);
      if IsPathOf(s, path) {
        assert |path| < |s| && shorter[|shorter| - |path|..] == s[|s| - |path|..];
      }
      if IsPathOf(shorter, path) {
        assert shorter[|shorter| - |path|..] == s[|s| - |path|..];
      }
    } else if IsPathOf(s, path) {
      assert |path| == |s| && s[0..] == s;
    } else {
      assert s[|s| - |s|..] == s;
    }
  }

  /** The repository that an image object spells out, with its registry in front if it has one. */
  ghost predicate IsBase(value: Json, base: string) {
    && value.Obj? && "repository" in value.fields && value.fields["repository"].Str?
    && var repository := value.fields["repository"].text;
       || (HasNoText(value, "registry") && base == repository)
       || exists registry, host, path ::
            && HasText(value, "registry", registry) && IsHost(registry, host) && IsPathOf(repository, path)
            && base == host + "/" + path
  }

  lemma BaseIff(value: Json, base: string)
    requires value.Obj? && Field(value, "repository").Str?
    ensures var registry, repository := Field(value, "registry"), Field(value, "repository").text;
            IsBase(value, base)
            <==> base == if NonEmptyText(registry) then TrimSlashesRight(registry.text) + "/" + TrimSlashesLeft(repository)
                         else repository
  {
    var registry, repository := Field(value, "registry"), Field(value, "repository").text;
    hide IsHost, IsPathOf;
    if NonEmptyText(registry) {
      var host, path := TrimSlashesRight(registry.text), TrimSlashesLeft(repository);
      TrimmedRight(registry.text, host);
      TrimmedLeft(repository, path);
      assert HasText(value, "registry", registry.text) && !HasNoText(value, "registry");
      forall host', path' | IsHost(registry.text, host') && IsPathOf(repository, path')
        ensures host' + "/" + path' == host + "/" + path
      {
        TrimmedRight(registry.text, host');
        TrimmedLeft(repository, path');
      }
    }
  }

  /** An image value is the image itself, or an object that spells out a repository and a digest or tag. */
  lemma NamedImageIff(value: Json, image: string)
    ensures NamedImage(value) == Some(image)
            <==> value == Str(image) || exists base, mark :: IsBase(value, base) && IsMark(value, "tag", mark) && image == base + mark
  {
    hide IsMark, IsHost, IsPathOf, Joined;
    if value.Obj? && Field(value, "repository").Str? {
      var registry, repository := Field(value, "registry"), Field(value, "repository").text;
      var full := if NonEmptyText(registry) then TrimSlashesRight(registry.text) + "/" + TrimSlashesLeft(repository)
                  else repository;
      forall base ensures IsBase(value, base) <==> base == full {
        BaseIff(value, base);
      }
      hide IsBase;
      JoinedIff(value, "tag", full, image);
    }
  }

  /** A replacement names its new name, or without one its name, with a digest or a new tag. */
  lemma ReplacementIff(value: Json, image: string)
    ensures ReplacementImage(value) == Some(image)
            <==> && value.Obj? && exists name, mark ::
                      && name in ["newName", "name"] && (name == "name" ==> "newName" !in value.fields)
                      && name in value.fields && value.fields[name].Str?
                      && IsMark(value, "newTag", mark) && image == value.fields[name].text + mark
  {
    hide IsMark, Joined;
    if value.Obj? {
      var name := if "newName" in value.fields then "newName" else "name";
      assert name in ["newName", "name"];
      var repository := if "newName" in value.fields then value.fields["newName"] else Field(value, "name");
      if repository.Str? {
        JoinedIff(value, "newTag", repository.text, image);
      }
    }
  }

  /** Which entries are looked at: five keys of a document, and two of a workflow. */
  lemma KeysOfInterest(key: string, value: Json, image: string)
    ensures OwnImage(ImageValues, key, value) == Some(image)
            <==> key in ["imageRef", "containerImage", "initImage", "imageName", "image"] && NamedImage(value) == Some(image)
    ensures OwnImage(ContainerValues, key, value) == Some(image)
            <==> (key == "container" && value == Str(image)) || (key == "uses" && value == Str("docker://" + image))
  {
    hide NamedImage;
    assert value.Str? && StartsWith(value.text, "docker://") ==> value.text == "docker://" + value.text[9..];
    assert ("docker://" + image)[9..] == image;
  }

  /** Where a path leads: one entry or item further with every step. */
  lemma {:induction false} NodeFurther(value: Json, path: seq<Step>, step: Step)
    ensures NodeAt(value, []) == Some(value)
    ensures NodeAt(value, path + [step])
            == match NodeAt(value, path)
               case None => None
               case Some(node) =>
                 match step
                 case Key(k) => (if node.Obj? && k in node.fields then Some(node.fields[k]) else None)
                 case Index(i) => (if node.Arr? && i < |node.items| then Some(node.items[i]) else None)
  {
    var longer := path + [step];
    if path == [] {
      assert longer[1..] == [];
    } else {
      assert longer[1..] == path[1..] + [step];
      match path[0]
      case Key(k) =>
        if value.Obj? && k in value.fields {
          NodeFurther(value.fields[k], path[1..], step);
        }
      case Index(i) =>
        if value.Arr? && i < |value.items| {
          NodeFurther(value.items[i], path[1..], step);
        }
    }
  }

  /** How a path is written: a dot and the key, or the index in brackets, for every step. */
  lemma {:induction false} PathFurther(path: seq<Step>, key: string, index: nat)
    ensures PathText([]) == ""
    ensures PathText(path + [Key(key)]) == PathText(path) + ("." + key)
    ensures PathText(path + [Index(index)]) == PathText(path) + ("[" + NatText(index) + "]")
  {
    OneStepText("", Key(key));
    OneStepText("", Index(index));
    hide KeyAt, ItemAt;
    StepAtEnd(path, Key(key));
    StepAtEnd(path, Index(index));
    assert "" + PathText([Key(key)]) == PathText([Key(key)]) && "" + PathText([Index(index)]) == PathText([Index(index)]);
    KeyAndIndexText(key, index);
  }

  lemma KeyAndIndexText(key: string, index: nat)
    ensures KeyAt("", key) == "." + key && ItemAt("", index) == "[" + NatText(index) + "]"
  {
    hide NatText;
  }

  lemma {:induction false} StepAtEnd(path: seq<Step>, step: Step)
    ensures PathText(path + [step]) == PathText(path) + PathText([step])
  {
    hide KeyAt, ItemAt;
    if path == [] {
      assert [] + [step] == [step];
    } else {
      StepAtEnd(path[1..], step);
      assert (path + [step])[1..] == path[1..] + [step];
      Associative(if path[0].Key? then KeyAt("", path[0].name) else ItemAt("", path[0].at), PathText(path[1..]), PathText([step]));
    }
  }

  /** The path ends in an entry that names the image. */
  ghost predicate EndsInEntry(scan: Scan, value: Json, path: seq<Step>, key: string, image: string) {
    exists before, node :: && path == before + [Key(key)] && NodeAt(value, path) == Some(node)
                           && OwnImage(scan, key, node) == Some(image)
  }

  /** The path ends in an item of a list named `images` that names the image. */
  ghost predicate EndsInReplacement(value: Json, path: seq<Step>, i: nat, image: string) {
    exists before, node :: && path == before + [Key("images"), Index(i)] && NodeAt(value, path) == Some(node)
                           && ReplacementImage(node) == Some(image)
  }

  /** What names an image. */
  lemma NamesImageIff(scan: Scan, value: Json, path: seq<Step>, image: string)
    ensures NamesImage(scan, value, path, image)
            <==> || (exists key :: EndsInEntry(scan, value, path, key, image))
                 || (scan == ImageValues && exists i :: EndsInReplacement(value, path, i, image))
  {
    hide NamesImage, EndsInEntry, EndsInReplacement;
    if NamesImage(scan, value, path, image) {
      NamedEnds(scan, value, path, image);
    }
    if key :| EndsInEntry(scan, value, path, key, image) {
      EntryNames(scan, value, path, key, image);
    }
    if i :| scan == ImageValues && EndsInReplacement(value, path, i, image) {
      ReplacementNames(value, path, i, image);
    }
  }

  lemma NamedEnds(scan: Scan, value: Json, path: seq<Step>, image: string)
    requires NamesImage(scan, value, path, image)
    ensures path != []
    ensures var last := path[|path| - 1];
            if last.Key? then EndsInEntry(scan, value, path, last.name, image)
            else scan == ImageValues && EndsInReplacement(value, path, last.at, image)
  {
    hide OwnImage, ReplacementImage, NodeAt;
    var n := |path|;
    assert path == path[..n - 1] + [path[n - 1]];
    if path[n - 1].Index? {
      assert path == path[..n - 2] + [path[n - 2], path[n - 1]];
    }
  }

  lemma EntryNames(scan: Scan, value: Json, path: seq<Step>, key: string, image: string)
    requires EndsInEntry(scan, value, path, key, image)
    ensures NamesImage(scan, value, path, image)
  {
    hide OwnImage, ReplacementImage, NodeAt;
    assert path[|path| - 1] == Key(key);
  }

  lemma ReplacementNames(value: Json, path: seq<Step>, i: nat, image: string)
    requires EndsInReplacement(value, path, i, image)
    ensures NamesImage(ImageValues, value, path, image)
  {
    hide OwnImage, ReplacementImage, NodeAt;
    assert path[|path| - 1] == Index(i) && path[|path| - 2] == Key("images");
  }
}
