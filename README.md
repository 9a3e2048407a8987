# OpenGL wrapper layer: layout, attribute pointers, shader parsing, uniform cache

This project models the host-side logic of a small OpenGL rendering wrapper.
Almost everything in the wrapper is a call into the graphics driver. Three
pieces compute something of their own, and these are what the model covers.

- **Vertex buffer layout** (`BufferLayout`, in `buffer_layout.dfy`). A
  `VertexBufferLayout` object holds an ordered list of attribute
  descriptors `{type, count, normalized}` and a running stride. Each typed
  `Push` appends one descriptor and adds `count * GetSizeOfType(type)` to
  the stride. The object invariant `Valid()` says that the stride is the sum
  of the element sizes in insertion order. The constructor establishes it
  and every push keeps it.
- **Attribute pointers** (`VertexArrays`, in `vertex_array.dfy`).
  `VertexArray.AddBuffer` binds the vertex array, then the vertex buffer,
  then walks the layout and configures slot `i` from element `i`. Each
  `glVertexAttribPointer` call gets the layout's stride and the running byte
  offset. The model returns the issued GL calls as a sequence of `GLCall`
  values. Its contract gives every call in that sequence. The lemmas show
  that offsets are prefix sums of the element sizes. They also show that the
  attributes tile the vertex record without gaps or overlap and end exactly
  at the stride.
- **Shader source parsing and the uniform cache** (`Shaders`, in
  `shader.dfy`). `ParseShader` reads the file's lines with a two-state
  loop. A line containing `#shader` switches the stage: to vertex if it
  contains `vertex`, which is tested first, else to fragment if it contains
  `fragment`. Every other line is appended, followed by `'\n'`, to the
  current stage's source. The loop is proved against a reference definition
  (`ActiveAfter`, `Selected`, `Join`). `Shader.GetUniformLocation` is a lazy
  memo table kept in the `uniformLocationCache` map field. A hit answers
  from the map. A miss asks the driver once, warns if the answer is `-1`,
  and stores the answer, `-1` included.

The GL type codes are the values from the OpenGL headers: `GL_FLOAT` is
`0x1406`, `GL_UNSIGNED_INT` is `0x1405` and `GL_UNSIGNED_BYTE` is `0x1401`.
The driver's answer to `glGetUniformLocation` for the linked program is the
`uniformTable` function, given to the `Shader` constructor.

Points where the code's behaviour may surprise:

- Stage markers are matched by substring (`line.find(...)`), not as whole
  lines. So `// #shader vertex and fragment` is a vertex marker.
- The generic `Push<T>` only constructs a `std::runtime_error` temporary
  and returns. It never throws, so it is not modelled.
- A source line before any marker makes the code index `ss[-1]`, which is
  undefined behaviour. The model does not guess at that behaviour.
  `ParseShader` returns `StrayLine(i)` for the first such line `i`, and
  `Parsed(...)` exactly when no such line exists.

## Model

| member | source | states |
|---|---|---|
| `BufferLayout.GetSizeOfType` | VertexBufferLayout.h:14-24 | a known type has size 4 or 1, and 1 exactly for `GL_UNSIGNED_BYTE`; any other type is excluded by the precondition (the code's `ASSERT(false)`) |
| `BufferLayout.VertexBufferLayout.constructor` | VertexBufferLayout.h:40-44 | a new layout has no elements and stride 0, and satisfies the stride invariant |
| `BufferLayout.VertexBufferLayout.PushFloat` | VertexBufferLayout.h:53-60 | appends exactly `{GL_FLOAT, n, false}` after the unchanged earlier elements, adds `4*n` to the stride, and keeps stride = sum of element sizes |
| `BufferLayout.VertexBufferLayout.PushUnsignedInt` | VertexBufferLayout.h:62-67 | appends exactly `{GL_UNSIGNED_INT, n, false}`, adds `4*n` to the stride, and keeps the invariant |
| `BufferLayout.VertexBufferLayout.PushUnsignedByte` | VertexBufferLayout.h:69-74 | appends exactly `{GL_UNSIGNED_BYTE, n, true}` (the only normalized kind), adds `n` to the stride, and keeps the invariant |
| `BufferLayout.VertexBufferLayout.GetElements` | VertexBufferLayout.h:76-76 | reads only: returns the elements in push order, all of known type, whose sizes sum to the stride |
| `BufferLayout.VertexBufferLayout.GetStride` | VertexBufferLayout.h:78-78 | reads only: returns the sum of the element sizes, which bounds every single element's size |
| `BufferLayout.SumSizesConcat` | VertexBufferLayout.h:59-73 | the size sum is additive over concatenation, so pushes in sequence add their sizes to the stride |
| `BufferLayout.OffsetStep` | VertexArray.cpp:26-33 | offset 0 is 0 and offset `i+1` is offset `i` plus element `i`'s size (running prefix sum) |
| `BufferLayout.OffsetsAreOrdered` | VertexArray.cpp:26-33 | element `i` ends no later than any later element's offset, and every offset is at most the stride |
| `BufferLayout.OffsetAtEnd` | VertexArray.cpp:26-34 | the running offset after the last element equals the layout's stride |
| `VertexArrays.VertexArray.constructor` | VertexArray.cpp:7-11 | the vertex array keeps the name the driver issued for it |
| `VertexArrays.VertexArray.AddBuffer` | VertexArray.cpp:18-36 | issues the array bind, then the buffer bind, then for each element `i` in order: enable slot `i`, and point slot `i` at element `i`'s count, type and normalized flag, with the layout's stride and the prefix-sum offset; `2 + 2n` calls and no others |
| `VertexArrays.AttributesTileTheRecord` | VertexArray.cpp:26-34 | each configured attribute lies inside the stride, each starts where the previous one ends, and the last one ends at the stride |
| `VertexArrays.QuadLayoutExample` | Graphics.cpp:87-91 | float×3 then float×2 gives slots 0 and 1 at offsets 0 and 12 with shared stride 20 |
| `Shaders.ContainsIff` | Shader.cpp:29-33 | the substring test succeeds exactly when the pattern occurs at some position (both directions) |
| `Shaders.ParseShader` | Shader.cpp:14-45 | parses iff no non-marker line comes before a selecting marker; the vertex and fragment sources are the newline-terminated concatenations of the lines selected for each stage, in input order; otherwise reports the first such stray line, preceded only by marker lines |
| `Shaders.NoStrayLineIff` | Shader.cpp:24-38 | "no stray line" holds iff every non-marker line is read while some stage is active (both directions) |
| `Shaders.MarkersNeverCopied` | Shader.cpp:29-38 | no line containing `#shader` is ever copied into either stage's source |
| `Shaders.SectionBody` | Shader.cpp:37-39 | a block of non-marker lines leaves the stage unchanged and goes, in order and entirely, to the stage active before it |
| `Shaders.MarkerSelectsStage` | Shader.cpp:29-36 | after a marker, the following lines go to vertex if it names `vertex` (even if it also names `fragment`), else to fragment if it names `fragment`, else to the stage active before it |
| `Shaders.NeutralMarkerIsDropped` | Shader.cpp:29-36 | a marker naming neither keyword can be deleted without changing the active stage, the selected lines or the parse outcome |
| `Shaders.TwoSections` | Shader.cpp:26-44 | vertex marker, N lines, fragment marker, M lines parses to exactly those N lines and those M lines; with M = 0 the fragment source is empty |
| `Shaders.DemoShaderFile` | Shader.cpp:26-44 | the same for the literal markers `#shader vertex` and `#shader fragment` |
| `Shaders.VertexMarker` | Shader.cpp:29-31 | `#shader vertex` is a marker that selects the vertex stage |
| `Shaders.FragmentMarker` | Shader.cpp:29-35 | `#shader fragment` is a marker that selects the fragment stage and does not name `vertex` |
| `Shaders.LookupUniform` | Shader.cpp:129-142 | against a cache consistent with the driver, a lookup returns the driver's location and leaves the cache consistent; the name is cached afterwards; events occur iff the name was not cached |
| `Shaders.EachNameQueriedOnce` | Shader.cpp:129-142 | over any sequence of lookups, the driver is queried exactly for the names not cached at the start, each once; the cache gains exactly the looked-up names |
| `Shaders.EachMissingNameWarnedOnce` | Shader.cpp:135-140 | over any sequence of lookups, a warning is printed exactly for the names not cached at the start whose location is `-1`, each at most once however often it is looked up |
| `Shaders.LookupAllLocations` | Shader.cpp:129-142 | against a cache consistent with the driver, lookup `i` of a sequence returns the driver's location for name `i`, and the cache stays consistent |
| `Shaders.SameNameTwice` | Shader.cpp:129-142 | two lookups of one name return the same driver location, with at most one query and at most one warning |
| `Shaders.Shader.constructor` | Shader.cpp:9-12 | a new shader has an empty uniform location cache |
| `Shaders.Shader.GetUniformLocation` | Shader.cpp:129-142 | a hit returns the cached value with no query and no cache change; a miss queries once, warns iff the result is `-1`, stores the result under that name only, and returns it; either way the result is the driver's location and the cache stays consistent |

## Left out

- GL and GLFW calls themselves (buffer creation, binds outside `AddBuffer`, draws, `GLCall` error polling) are foreign calls. `AddBuffer` records the calls it makes as values and does not model driver state.
- Stride and offset are `unsigned int` in the code. The model uses unbounded naturals, so 32-bit wrap-around is not modelled. The demo's layouts are far below that range.
- The generic `Push<T>` template constructs and discards an exception object without throwing. It has no observable behaviour, so it is not modelled.
- `ParseShader` reads its lines from a file. The model takes the sequence of lines that `getline` would produce. The constructor parses the same file twice; with a pure parse this is one call per stage, and it is not modelled.
- The behaviour of a source line before any stage marker is undefined in the code (`ss[-1]`). The model reports it as `StrayLine` instead.
- `CompileShader`, `CreateShader`, `Bind`/`Unbind` and the `SetUniform*` setters are GL calls on float and matrix data. Only the location lookup they share is modelled.
- The uniform-not-found warning's text, printed to standard output, is modelled only as a `MissingUniformWarning(name)` event.
- `Renderer`, `VertexBuffer`, `IndexBuffer`, `Texture` and the demo loop in `Graphics.cpp` are GL plumbing without logic of their own, and are not part of this model.
