/** Prompt content in version 1 of the agent client protocol. `Future` stands for variants added later. */
module AcpV1 {
  import opened Prelude

  type Meta = Option<string>

  datatype Role = Assistant | User | Future

  datatype Annotations = Annotations(
    audience: Option<seq<Role>>, lastModified: Option<string>, priority: Option<real>, meta: Meta)

  datatype Resource =
    | TextContents(text: string, uri: string, mimeType: Option<string>, meta: Meta)
    | BlobContents(blob: string, uri: string, mimeType: Option<string>, meta: Meta)
    | FutureContents

  datatype Block =
    | Text(text: string, annotations: Option<Annotations>, meta: Meta)
    | Image(data: string, mimeType: string, imageUri: Option<string>, annotations: Option<Annotations>, meta: Meta)
    | Audio(data: string, mimeType: string, annotations: Option<Annotations>, meta: Meta)
    | ResourceLink(
        name: string, uri: string, title: Option<string>, description: Option<string>, linkType: Option<string>,
        size: Option<int>, annotations: Option<Annotations>, meta: Meta)
    | Embedded(resource: Resource, annotations: Option<Annotations>, meta: Meta)
    | Future

  datatype PromptRequest = PromptRequest(sessionId: string, prompt: seq<Block>, meta: Meta)
}

/** Prompt content in version 2: media types are typed, links have icons, roles and blocks can be custom. */
module AcpV2 {
  import opened Prelude

  type Meta = Option<string>

  datatype MediaType = MediaType(name: string)

  datatype Icon = Icon(src: string)

  datatype Role = Assistant | User | Other(name: string) | Future

  datatype Annotations = Annotations(
    audience: Option<seq<Role>>, lastModified: Option<string>, priority: Option<real>, meta: Meta)

  datatype Resource =
    | TextContents(text: string, uri: string, mimeType: Option<MediaType>, meta: Meta)
    | BlobContents(blob: string, uri: string, mimeType: Option<MediaType>, meta: Meta)
    | FutureContents

  datatype Block =
    | Text(text: string, annotations: Option<Annotations>, meta: Meta)
    | Image(data: string, mimeType: MediaType, imageUri: Option<string>, annotations: Option<Annotations>, meta: Meta)
    | Audio(data: string, mimeType: MediaType, annotations: Option<Annotations>, meta: Meta)
    | ResourceLink(
        name: string, uri: string, title: Option<string>, description: Option<string>, icons: Option<seq<Icon>>,
        linkType: Option<MediaType>, size: Option<int>, annotations: Option<Annotations>, meta: Meta)
    | Embedded(resource: Resource, annotations: Option<Annotations>, meta: Meta)
    | Other(tag: string)
    | Future

  datatype PromptRequest = PromptRequest(sessionId: string, prompt: seq<Block>, meta: Meta)
}

/** Conversion between the two (crates/acp_thread/src/content.rs) and the check made before it. */
module AcpContent {
  import opened Prelude
  import V1 = AcpV1
  import V2 = AcpV2

  datatype Error = UnsupportedRole | UnsupportedResource | UnsupportedBlock | IconsNotRepresentable | PromptNotSupported

  // ---- Version 2 to version 1 ----------------------------------------------------------

  function RolesToV1(roles: seq<V2.Role>): (r: Result<seq<V1.Role>, Error>) {
    if roles == [] then Ok([])
    else
      var first :- match roles[0]
                   case Assistant => Ok(V1.Assistant)
                   case User => Ok(V1.User)
                   case _ => Err(UnsupportedRole);
      var rest :- RolesToV1(roles[1..]);
      Ok([first] + rest)
  }

  function AnnotationsToV1(annotations: Option<V2.Annotations>): (r: Result<Option<V1.Annotations>, Error>) {
    match annotations
    case None => Ok(None)
    case Some(Annotations(None, lastModified, priority, meta)) =>
      Ok(Some(V1.Annotations(None, lastModified, priority, meta)))
    case Some(Annotations(Some(roles), lastModified, priority, meta)) =>
      var audience :- RolesToV1(roles);
      Ok(Some(V1.Annotations(Some(audience), lastModified, priority, meta)))
  }

  function MimeToV1(mimeType: Option<V2.MediaType>): (r: Option<string>) {
    if mimeType.Some? then Some(mimeType.value.name) else None
  }

  function ResourceToV1(resource: V2.Resource): (r: Result<V1.Resource, Error>) {
    match resource
    case TextContents(text, uri, mimeType, meta) => Ok(V1.TextContents(text, uri, MimeToV1(mimeType), meta))
    case BlobContents(blob, uri, mimeType, meta) => Ok(V1.BlobContents(blob, uri, MimeToV1(mimeType), meta))
    case FutureContents => Err(UnsupportedResource)
  }

  function ToV1(block: V2.Block): (r: Result<V1.Block, Error>) {
    match block
    case Text(text, annotations, meta) =>
      var a :- AnnotationsToV1(annotations);
      Ok(V1.Text(text, a, meta))
    case Image(data, mimeType, uri, annotations, meta) =>
      var a :- AnnotationsToV1(annotations);
      Ok(V1.Image(data, mimeType.name, uri, a, meta))
    case Audio(data, mimeType, annotations, meta) =>
      var a :- AnnotationsToV1(annotations);
      Ok(V1.Audio(data, mimeType.name, a, meta))
    case ResourceLink(name, uri, title, description, icons, mimeType, size, annotations, meta) =>
      if icons.Some? && icons.value != [] then Err(IconsNotRepresentable)
      else
        var a :- AnnotationsToV1(annotations);
        Ok(V1.ResourceLink(name, uri, title, description, MimeToV1(mimeType), size, a, meta))
    case Embedded(resource, annotations, meta) =>
      var res :- ResourceToV1(resource);
      var a :- AnnotationsToV1(annotations);
      Ok(V1.Embedded(res, a, meta))
    case Other(_) => Err(UnsupportedBlock)
    case Future => Err(UnsupportedBlock)
  }

  function BlocksToV1(blocks: seq<V2.Block>): (r: Result<seq<V1.Block>, Error>) {
    if blocks == [] then Ok([])
    else
      var first :- ToV1(blocks[0]);
      var rest :- BlocksToV1(blocks[1..]);
      Ok([first] + rest)
  }

  function PromptToV1(request: V2.PromptRequest): (r: Result<V1.PromptRequest, Error>) {
    var prompt :- BlocksToV1(request.prompt);
    Ok(V1.PromptRequest(request.sessionId, prompt, request.meta))
  }

  // ---- The check made before -------------------------------------------------------------

  predicate PlainRole(role: V2.Role) {
    role.Assistant? || role.User?
  }

  predicate CanConvertAnnotations(annotations: Option<V2.Annotations>) {
    annotations.Some? && annotations.value.audience.Some? ==>
      forall role :: role in annotations.value.audience.value ==> PlainRole(role)
  }

  predicate CanConvertToV1(block: V2.Block) {
    match block
    case Text(_, annotations, _) => CanConvertAnnotations(annotations)
    case Image(_, _, _, annotations, _) => CanConvertAnnotations(annotations)
    case Audio(_, _, annotations, _) => CanConvertAnnotations(annotations)
    case ResourceLink(_, _, _, _, icons, _, _, annotations, _) =>
      (icons.None? || icons.value == []) && CanConvertAnnotations(annotations)
    case Embedded(resource, annotations, _) => !resource.FutureContents? && CanConvertAnnotations(annotations)
    case _ => false
  }

  function ValidatePromptContentForV1(content: seq<V2.Block>): (r: Result<(), Error>) {
    if exists block :: block in content && !CanConvertToV1(block) then Err(PromptNotSupported) else Ok(())
  }

  // ---- Version 1 to version 2 ----------------------------------------------------------------

  function RolesFromV1(roles: seq<V1.Role>): (r: Result<seq<V2.Role>, Error>) {
    if roles == [] then Ok([])
    else
      var first :- match roles[0]
                   case Assistant => Ok(V2.Role.Assistant)
                   case User => Ok(V2.Role.User)
                   case Future => Err(UnsupportedRole);
      var rest :- RolesFromV1(roles[1..]);
      Ok([first] + rest)
  }

  function AnnotationsFromV1(annotations: Option<V1.Annotations>): (r: Result<Option<V2.Annotations>, Error>) {
    match annotations
    case None => Ok(None)
    case Some(Annotations(None, lastModified, priority, meta)) =>
      Ok(Some(V2.Annotations(None, lastModified, priority, meta)))
    case Some(Annotations(Some(roles), lastModified, priority, meta)) =>
      var audience :- RolesFromV1(roles);
      Ok(Some(V2.Annotations(Some(audience), lastModified, priority, meta)))
  }

  function MimeFromV1(mimeType: Option<string>): (r: Option<V2.MediaType>) {
    if mimeType.Some? then Some(V2.MediaType(mimeType.value)) else None
  }

  function ResourceFromV1(resource: V1.Resource): (r: Result<V2.Resource, Error>) {
    match resource
    case TextContents(text, uri, mimeType, meta) => Ok(V2.TextContents(text, uri, MimeFromV1(mimeType), meta))
    case BlobContents(blob, uri, mimeType, meta) => Ok(V2.BlobContents(blob, uri, MimeFromV1(mimeType), meta))
    case FutureContents => Err(UnsupportedResource)
  }

  function FromV1(block: V1.Block): (r: Result<V2.Block, Error>) {
    match block
    case Text(text, annotations, meta) =>
      var a :- AnnotationsFromV1(annotations);
      Ok(V2.Text(text, a, meta))
    case Image(data, mimeType, uri, annotations, meta) =>
      var a :- AnnotationsFromV1(annotations);
      Ok(V2.Image(data, V2.MediaType(mimeType), uri, a, meta))
    case Audio(data, mimeType, annotations, meta) =>
      var a :- AnnotationsFromV1(annotations);
      Ok(V2.Audio(data, V2.MediaType(mimeType), a, meta))
    case ResourceLink(name, uri, title, description, mimeType, size, annotations, meta) =>
      var a :- AnnotationsFromV1(annotations);
      Ok(V2.ResourceLink(name, uri, title, description, None, MimeFromV1(mimeType), size, a, meta))
    case Embedded(resource, annotations, meta) =>
      var res :- ResourceFromV1(resource);
      var a :- AnnotationsFromV1(annotations);
      Ok(V2.Embedded(res, a, meta))
    case Future => Err(UnsupportedBlock)
  }

  // ---- The check is exact ------------------------------------------------------------------------

  lemma {:induction false} RolesConvertible(roles: seq<V2.Role>)
    ensures RolesToV1(roles).Ok? <==> forall role :: role in roles ==> PlainRole(role)
  {
    if roles != [] {
      RolesConvertible(roles[1..]);
      assert roles == [roles[0]] + roles[1..];
      assert PlainRole(roles[0]) <==> roles[0].Assistant? || roles[0].User?;
    }
  }

  lemma AnnotationsConvertible(annotations: Option<V2.Annotations>)
    ensures AnnotationsToV1(annotations).Ok? <==> CanConvertAnnotations(annotations)
  {
    if annotations.Some? && annotations.value.audience.Some? {
      RolesConvertible(annotations.value.audience.value);
    }
  }

  /** The check holds exactly when the conversion succeeds. */
  lemma CanConvertIff(block: V2.Block)
    ensures CanConvertToV1(block) <==> ToV1(block).Ok?
  {
    if !block.Other? && !block.Future? {
      AnnotationsConvertible(block.annotations);
    }
  }

  lemma {:induction false} BlocksConvertible(blocks: seq<V2.Block>)
    ensures BlocksToV1(blocks).Ok? <==> forall block :: block in blocks ==> CanConvertToV1(block)
    ensures BlocksToV1(blocks).Ok? ==>
              var r := BlocksToV1(blocks).value;
              |r| == |blocks| && forall i :: 0 <= i < |blocks| ==> ToV1(blocks[i]) == Ok(r[i])
  {
    if blocks != [] {
      CanConvertIff(blocks[0]);
      BlocksConvertible(blocks[1..]);
      assert forall block :: block in blocks <==> block == blocks[0] || block in blocks[1..];
    }
  }

  /**
   A prompt passes validation exactly when it converts; every block is converted, in order, and
   the session and metadata stay.
   */
  lemma ValidPromptIff(request: V2.PromptRequest)
    ensures ValidatePromptContentForV1(request.prompt).Ok? <==> PromptToV1(request).Ok?
    ensures PromptToV1(request).Ok? ==>
              var r := PromptToV1(request).value;
              && r.sessionId == request.sessionId && r.meta == request.meta && |r.prompt| == |request.prompt|
              && forall i :: 0 <= i < |r.prompt| ==> ToV1(request.prompt[i]) == Ok(r.prompt[i])
  {
    BlocksConvertible(request.prompt);
  }

  // ---- Round trips ----------------------------------------------------------------------------------

  lemma {:induction false} RolesFromTo(roles: seq<V1.Role>)
    ensures RolesFromV1(roles).Ok? <==> V1.Role.Future !in roles
    ensures RolesFromV1(roles).Ok? ==> RolesToV1(RolesFromV1(roles).value) == Ok(roles)
  {
    if roles != [] {
      RolesFromTo(roles[1..]);
      assert roles == [roles[0]] + roles[1..];
    }
  }

  lemma {:induction false} RolesToFrom(roles: seq<V2.Role>)
    ensures RolesToV1(roles).Ok? ==> RolesFromV1(RolesToV1(roles).value) == Ok(roles)
  {
    if roles != [] {
      RolesToFrom(roles[1..]);
      assert roles == [roles[0]] + roles[1..];
    }
  }

  lemma AnnotationsFromTo(annotations: Option<V1.Annotations>)
    ensures AnnotationsFromV1(annotations).Ok? <==>
            annotations.Some? && annotations.value.audience.Some? ==> V1.Role.Future !in annotations.value.audience.value
    ensures AnnotationsFromV1(annotations).Ok? ==> AnnotationsToV1(AnnotationsFromV1(annotations).value) == Ok(annotations)
  {
    if annotations.Some? && annotations.value.audience.Some? {
      RolesFromTo(annotations.value.audience.value);
    }
  }

  lemma AnnotationsToFrom(annotations: Option<V2.Annotations>)
    ensures AnnotationsToV1(annotations).Ok? ==> AnnotationsFromV1(AnnotationsToV1(annotations).value) == Ok(annotations)
  {
    if annotations.Some? && annotations.value.audience.Some? {
      RolesToFrom(annotations.value.audience.value);
    }
  }

  /** Every part of the block is of a kind known today. */
  predicate Supported(block: V1.Block) {
    && !block.Future?
    && (block.Embedded? ==> !block.resource.FutureContents?)
    && (block.annotations.Some? && block.annotations.value.audience.Some? ==>
          V1.Role.Future !in block.annotations.value.audience.value)
  }

  /** Exactly the supported blocks convert to version 2, and converting back gives the same block. */
  lemma FromThenTo(block: V1.Block)
    ensures FromV1(block).Ok? <==> Supported(block)
    ensures FromV1(block).Ok? ==> ToV1(FromV1(block).value) == Ok(block)
  {
    if !block.Future? {
      AnnotationsFromTo(block.annotations);
    }
  }

  /** An empty icon list becomes absent; nothing else changes. */
  function IconsNormalized(block: V2.Block): (r: V2.Block) {
    if block.ResourceLink? && block.icons == Some([]) then block.(icons := None) else block
  }

  /** Converting to version 1 and back only normalises an empty icon list. */
  lemma ToThenFrom(block: V2.Block)
    requires ToV1(block).Ok?
    ensures FromV1(ToV1(block).value) == Ok(IconsNormalized(block))
  {
    AnnotationsToFrom(block.annotations);
  }

  /** Two convertible blocks look the same in version 1 exactly when they differ at most in an empty icon list. */
  lemma SameInV1Iff(a: V2.Block, b: V2.Block)
    requires CanConvertToV1(a) && CanConvertToV1(b)
    ensures ToV1(a) == ToV1(b) <==> IconsNormalized(a) == IconsNormalized(b)
  {
    CanConvertIff(a);
    CanConvertIff(b);
    ToThenFrom(a);
    ToThenFrom(b);
  }

  // ---- What a converted block says -------------------------------------------------------------------

  ghost predicate SameRole(a: V2.Role, b: V1.Role) {
    (a == V2.Role.Assistant && b == V1.Assistant) || (a == V2.Role.User && b == V1.User)
  }

  ghost predicate SameAudience(a: Option<seq<V2.Role>>, b: Option<seq<V1.Role>>) {
    && (a.None? <==> b.None?)
    && (a.Some? ==> |a.value| == |b.value| && forall i :: 0 <= i < |a.value| ==> SameRole(a.value[i], b.value[i]))
  }

  ghost predicate SameAnnotations(a: Option<V2.Annotations>, b: Option<V1.Annotations>) {
    && (a.None? <==> b.None?)
    && (a.Some? ==>
          && SameAudience(a.value.audience, b.value.audience) && a.value.priority == b.value.priority
          && a.value.lastModified == b.value.lastModified && a.value.meta == b.value.meta)
  }

  ghost predicate SameMime(a: Option<V2.MediaType>, b: Option<string>) {
    (a.None? <==> b.None?) && (a.Some? ==> a.value.name == b.value)
  }

  ghost predicate SameResource(a: V2.Resource, b: V1.Resource) {
    || (a.TextContents? && b.TextContents? && a.text == b.text && a.uri == b.uri && a.meta == b.meta
        && SameMime(a.mimeType, b.mimeType))
    || (a.BlobContents? && b.BlobContents? && a.blob == b.blob && a.uri == b.uri && a.meta == b.meta
        && SameMime(a.mimeType, b.mimeType))
  }

  /** The same kind of block, with the same field by field; a link has no icons to lose. */
  ghost predicate SameBlock(a: V2.Block, b: V1.Block) {
    && !a.Future? && !a.Other? && !b.Future?
    && a.meta == b.meta && SameAnnotations(a.annotations, b.annotations)
    && match a
       case Text(text, _, _) => b.Text? && b.text == text
       case Image(data, mimeType, uri, _, _) =>
         b.Image? && b.data == data && b.mimeType == mimeType.name && b.imageUri == uri
       case Audio(data, mimeType, _, _) => b.Audio? && b.data == data && b.mimeType == mimeType.name
       case ResourceLink(name, uri, title, description, icons, mimeType, size, _, _) =>
         && b.ResourceLink? && b.name == name && b.uri == uri && b.title == title && b.description == description
         && SameMime(mimeType, b.linkType) && b.size == size && (icons == None || icons == Some([]))
       case Embedded(resource, _, _) => b.Embedded? && SameResource(resource, b.resource)
  }

  lemma {:induction false} RolesSame(roles: seq<V2.Role>)
    requires RolesToV1(roles).Ok?
    ensures SameAudience(Some(roles), Some(RolesToV1(roles).value))
  {
    if roles != [] {
      RolesSame(roles[1..]);
    }
  }

  lemma AnnotationsSame(annotations: Option<V2.Annotations>)
    requires AnnotationsToV1(annotations).Ok?
    ensures SameAnnotations(annotations, AnnotationsToV1(annotations).value)
  {
    if annotations.Some? && annotations.value.audience.Some? {
      RolesSame(annotations.value.audience.value);
    }
  }

  /** A converted block says the same, in either direction. */
  lemma ConversionKeeps(a: V2.Block, b: V1.Block)
    ensures ToV1(a).Ok? ==> SameBlock(a, ToV1(a).value)
    ensures FromV1(b).Ok? ==> SameBlock(FromV1(b).value, b)
  {
    ToV1Keeps(a);
    FromThenTo(b);
    if FromV1(b).Ok? {
      ToV1Keeps(FromV1(b).value);
    }
  }

  lemma ToV1Keeps(a: V2.Block)
    ensures ToV1(a).Ok? ==> SameBlock(a, ToV1(a).value)
  {
    if ToV1(a).Ok? {
      AnnotationsSame(a.annotations);
    }
  }
}
