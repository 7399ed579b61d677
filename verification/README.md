# Verified models of the OpenXR SDK's loader and maths helpers

This project models the parts of the OpenXR SDK source whose correctness is hardest to see by reading,
and proves what they promise:

- **Spatial maths** (`XrLinear`, `MatrixInverse`, `Poses`, `RigidBodies`, `Decomposition`, `Projection`, `Bounds`):
  vectors, quaternions, poses, 4x4 matrices, projections, bounds and frustum culling of `xr_linear.h`, over exact reals.
- **The loader as a state machine** (`LoaderStates` and `Loader`, with `LoaderPlatform`, `RuntimeInterfaces`, `LoaderLogging`, `LoaderInit`):
  the active instance, the loaded runtime, the open libraries and the log recorders, under every sequence of API calls.
  Runtime and layers may fail at every point. `LoaderStates` says what each call returns and changes, and the classes of
  `Loader` are proved to do just that. A run is a sequence of calls: that the application makes them one after
  the other is an assumption, because the loader's lock covers only some of them (see "Left out").
- **API layers** (`LayerSelection`, `LayerChain`): which layers are enabled and load, and the chain that a create call follows.
  The create call of `Loader` follows that chain from layer to layer, and each layer may forward the call, fail before
  it does or fail afterwards; the runtime's reply depends on the extensions that reach it.
- **Search paths and extension lists** (`SearchPaths`, `Extensions`): building, joining and splitting of path lists,
  and the merge of the extensions of layers, runtime and loader.
- **Debug-utils bookkeeping** (`DebugUtils`): object names, session labels and callback data.
- **JNI helpers** (`JniObjects`, `JniStrings`): ownership of global references, and the UTF-16 conversion.

Classes and loops of the source are classes and loops here; each method is proved against a function or a predicate
whose properties are lemmas. `dafny verify dfyconfig.toml` checks the whole project.

## Findings

Where a promise does not hold of the code for every input, a lemma says exactly when it does, and another gives an input:

- The asserts of `GetTranslation`, `GetRotation` and `GetScale` fail on some matrices that
  `CreateTranslationRotationScale` makes with a non-uniform scale (`AssertsHoldIffNotSkewed`, `SkewedExample`);
  below the asserts the extraction is right for every positive scale.
- Culling keeps some boxes that are wholly in front of the near plane, where the clip volume's depth starts at 0
  (`CulledIff`, `KeptBeforeNear`).
- `WrapCallbackData` drops session labels when no object at all has been named (`LostLabel`), and labels that the caller
  sets itself are overwritten once one of the objects has a name (`OwnLabelLost`; exactly when: `WrappedLabels`).
- A list of one character is lost by `CopyIncludedPaths`, and an empty entry counts as the root directory
  (`VisitsEntriesIff`, `LostAndInventedDirectories`).
- A list of directories that starts with a separator, such as `:/usr/share`, makes `CopyIncludedPaths` read the character
  in front of the string; what stands there decides which path is looked at (`CopyIncludedPaths` states exactly when all
  reads are in range, `LostAndInventedDirectories` gives such a list).
- An extension name that does not fit its array and is listed twice, or one that a runtime repeats, is reported twice
  (`ReportedDistinctIff`, `RepeatedNames`).
- A layer without its negotiation function makes `LoadApiLayers` fail unless a later layer loads
  (`SucceedsIff`, `MissingNegotiationFails`).
- Extensions are reported for an explicit manifest that is never loaded because an implicit layer has its name
  (`ReportedAreLoadedIff`, `ReportedNotLoaded`).
- An application that asks for debug utils twice makes the terminator pass it to a runtime that does not support it
  (`GivenExtensionsSupportedIff`, `ChainExtensionsSupportedIff`, `DebugUtilsTwice`).
- `xrCreateInstance` fails but leaves its instance active when the messenger of its `next` chain cannot be made
  (`StrandsIff`); the application never learns the handle, and whatever it calls then no create succeeds (`StrandedInstance`).
- A layer that swallows `xrDestroyInstance` leaves recorders behind (exactly when: `InSyncThroughoutIff`;
  `SwallowedInstance` is such a run).
- Assigning a null `jni::Object` to one that is not null leaves the old handle in place (`CopyAssignedNullIff`), and copying
  that object then hands JNI a deleted reference (`CopyAfterNull`).
- Copy assignment deletes the target's references before it copies, so a temporary on the target's own class reference,
  as `getClass` invites to make, hands JNI a deleted reference (`CopyAssignMisusesIff`, `AssignOwnClass`). When a run
  misuses JNI is `RunMisusesIff`, and exactly which runs never do, with no handle left dangling, is `CarefulRunIff`; the
  temporaries on class references that `getMethod` and `getField` make are among them (`ClassTemporary`).
- `toWString` undoes `toJString` exactly on strings whose characters are single units and not high ones (`WidenedIff`,
  `SupplementaryIsLost`).

A remark: `LoadApiLayers` would not look at a failed discovery again (`FailedDiscoverySucceeds`), but the discovery of layers
fails only for an unknown type of manifest, which is never asked for (manifest_file.cpp, lines 1022-1029).

## Model

| member | source | states |
|---|---|---|
| MatrixInverse.SwapFirst | src/common/xr_linear.h:357-364 | exchanging two columns negates the determinant built from minors |
| MatrixInverse.ExpandTransposed | src/common/xr_linear.h:334-364 | transposing leaves that determinant unchanged |
| MatrixInverse.MinorsTimes | src/common/xr_linear.h:357-388 | three fixed columns' minors against any vector give the determinant with that vector in front (Laplace, and alien cofactors when the vector is one of the columns) |
| MatrixInverse.MinorsTimesMatrix | src/common/xr_linear.h:367-388 | the signed minors stored by Invert, times the matrix, are the determinant times the identity, for every matrix |
| MatrixInverse.Associative | src/common/xr_linear.h:311-331 | matrix multiplication is associative |
| MatrixInverse.TransformsAxes | src/common/xr_linear.h:781-786 | a matrix maps the four axes to its columns |
| MatrixInverse.TransformIsLinear | src/common/xr_linear.h:781-786 | and is linear, which fixes what it does to every vector |
| MatrixInverse.TransformTwice | src/common/xr_linear.h:311-331 | transforming by a product is transforming twice |
| MatrixInverse.TransposedProduct | src/common/xr_linear.h:311-354 | the transpose of a product is the product of the transposes in reverse |
| MatrixInverse.LeftInverse | src/common/xr_linear.h:367-388 | with a non-zero divisor, Invert(m) m is the identity |
| MatrixInverse.RightInverse | src/common/xr_linear.h:367-388 | and m Invert(m) is the identity too |
| MatrixInverse.InversesAgree | src/common/xr_linear.h:311-388 | a left and a right inverse of one matrix are equal, so there is only one inverse |
| Poses.QuatAssociative | src/common/xr_linear.h:251-256 | quaternion multiplication is associative, for all quaternions |
| Poses.UnitProduct | src/common/xr_linear.h:251-256 | the product of unit quaternions is a unit quaternion (four-square identity) |
| Poses.InvertProduct | src/common/xr_linear.h:251-263 | inverting a product reverses it |
| Poses.RotateIsPure | src/common/xr_linear.h:273-285 | the sandwich product of a vector has no real part, so taking three components loses nothing |
| Poses.RotateTwice | src/common/xr_linear.h:273-285 | rotating twice is rotating by the product, even for quaternions that are not unit |
| Poses.TurnsAboutAxes | src/common/xr_linear.h:273-285 | about each axis a quaternion turns right-handed, by twice the angle of its parts |
| Poses.TransformTwicePose | src/common/xr_linear.h:292-301 | composing poses composes their motions of every point; no unit length is needed |
| Poses.TurnsThenMoves | src/common/xr_linear.h:292-296 | a pose turns a point first and then moves it |
| Poses.RotationMatrix | src/common/xr_linear.h:497-532 | a unit quaternion and its matrix turn every vector alike |
| Poses.TrsColumns | src/common/xr_linear.h:535-549 | a combined matrix has the scaled columns of the rotation and the translation as its last column |
| Poses.PoseMatrixTransforms | src/common/xr_linear.h:551-554 | for a unit orientation, a pose and its matrix move every point and turn every direction alike |
| Poses.PoseMatrixMoves | src/common/xr_linear.h:772-778 | the same for TransformVector3f, whose homogeneous divisor is then 1 |
| Poses.TransformIsProjected | src/common/xr_linear.h:772-778 | for any divisor but 0, TransformVector3f is the homogeneous image divided by its last component |
| Poses.PoseProduct | src/common/xr_linear.h:298-331 | for unit orientations, the matrix of a product of poses is the product of the matrices |
| Poses.PoseInverse | src/common/xr_linear.h:303-308 | the inverse pose cancels a pose on both sides |
| Poses.InvertedPoseMatrix | src/common/xr_linear.h:391-408 | InvertRigidBody of a pose's matrix is the matrix of the inverse pose |
| RigidBodies.IsOrthogonal | src/common/xr_linear.h:668-684 | true exactly when distinct columns and distinct rows are perpendicular up to epsilon |
| RigidBodies.IsOrthonormal | src/common/xr_linear.h:687-702 | true exactly when the products of columns, and of rows, are the Kronecker delta up to epsilon |
| RigidBodies.IsRigidBody | src/common/xr_linear.h:705-707 | true exactly for affine and orthonormal matrices, up to epsilon |
| RigidBodies.OrthogonalIff | src/common/xr_linear.h:668-684 | the orthogonal test, product by product: three pairs of columns and three of rows |
| RigidBodies.OrthonormalIff | src/common/xr_linear.h:687-702 | the orthonormal test: that, and six lengths |
| RigidBodies.AffineIff | src/common/xr_linear.h:662-665 | the affine test, entry by entry |
| RigidBodies.RigidRightInverse | src/common/xr_linear.h:391-408 | InvertRigidBody is a right inverse of every matrix that IsRigidBody accepts with epsilon 0 |
| RigidBodies.RigidDeterminant | src/common/xr_linear.h:367-408 | such a matrix is invertible |
| RigidBodies.RigidInverseIsInverse | src/common/xr_linear.h:367-408 | on those matrices the rigid-body inverse is the general inverse |
| RigidBodies.PoseMatrixIsRigid | src/common/xr_linear.h:551-554 | a unit pose's matrix is rigid, and its general inverse is the matrix of the inverse pose |
| Decomposition.RcpSqrtUnique | src/common/xr_linear.h:144-148 | XrRcpSqrt is the only positive number whose square times x is 1 |
| Decomposition.RcpSqrtThreshold | src/common/xr_linear.h:144-148 | below the smallest normal float XrRcpSqrt is 1, and from there on the reciprocal root |
| Decomposition.DivisorAtLeastOne | src/common/xr_linear.h:732-759 | for a unit quaternion's matrix, whichever of the four branches GetRotation takes, its t is at least 1 |
| Decomposition.RotationRoundTrip | src/common/xr_linear.h:720-759 | the four-way extraction gives back the unit quaternion or its negation |
| Decomposition.DecompositionRoundTrip | src/common/xr_linear.h:710-769 | translation and scale come back exactly and the rotation up to sign, for every positive scale above the threshold |
| Decomposition.ExtractableIff | src/common/xr_linear.h:662-722 | when the asserts hold on any matrix, entry by entry and product by product |
| Decomposition.AssertsHoldIffNotSkewed | src/common/xr_linear.h:711-713 | the asserts of the extraction hold on a combined matrix exactly when no two scaled rows are skewed by more than 1e-4 |
| Decomposition.UniformScaleIsExtractable | src/common/xr_linear.h:711-713 | a uniform scale never trips them |
| Decomposition.SkewedExample | src/common/xr_linear.h:668-684 | a turn about z with x scaled by 2 does |
| Projection.ClipVolumeIsFrustum | src/common/xr_linear.h:564-620 | a point in front of the eye lands in the API's clip volume exactly when its tangents and its depth are in range, for every API and for a far plane at infinity |
| Projection.SidesLand | src/common/xr_linear.h:564-620 | where the four side planes go: left and right to -w and w, and up and down too, the other way round for Vulkan |
| Projection.DepthLands | src/common/xr_linear.h:564-620 | the near plane goes to -w for OpenGL and OpenGL ES and to 0 for the others, the far plane to w for all, and with the far plane at infinity nothing gets there |
| Projection.InsideAllPlanes | src/common/xr_linear.h:564-620 | a point strictly inside the frustum is strictly inside all six planes |
| Bounds.BoundsContainImages | src/common/xr_linear.h:789-804 | transformed bounds contain the image of every point of the box, for an affine matrix |
| Bounds.BoundsAreTight | src/common/xr_linear.h:789-804 | no box that contains all images is smaller on any side |
| Bounds.CullBounds | src/common/xr_linear.h:807-867 | a box without any positive side is never culled, and any other exactly when all eight corners are on or beyond one plane |
| Bounds.CornersDecide | src/common/xr_linear.h:807-867 | all corners are on or beyond a plane exactly when all points of the box are |
| Bounds.CullBox | src/common/xr_linear.h:807-867 | so for a box of more than one point, culling decides exactly whether the whole box has x, y or z at most -w, or at least w, in clip space |
| Bounds.CullableIff | src/common/xr_linear.h:807-867 | the same six tests of clip space, for any matrix and box |
| Bounds.FlatBoxIsCulled | src/common/xr_linear.h:808-867 | a flat box, a square wholly beyond the right plane, is culled |
| Bounds.BoxInFrustumIsNotCulled | src/common/xr_linear.h:564-867 | culling against a projection never drops a box that reaches strictly inside the frustum |
| Bounds.CulledIff | src/common/xr_linear.h:311-867 | culling against a projection times an affine matrix drops exactly the boxes of more than one point that the matrix moves, as a whole, on or beyond one face of the frustum, where the near test is later than the near plane if depth starts at 0 |
| Bounds.KeptBeforeNear | src/common/xr_linear.h:564-867 | a box wholly in front of the near plane that is kept |
| Bounds.MovedBoxIsNotCulled | src/common/xr_linear.h:311-867 | nor does culling against a projection times an affine matrix drop a box with a point that the matrix moves strictly inside the frustum |
| DebugUtils.ObjectInfoCollection.LookUpStoredObjectInfo | src/common/object_info.cpp:65-81 | finds a stored info exactly when the map of names has the key, with the map's name |
| DebugUtils.NamesFirst | src/common/object_info.cpp:65-81 | of the infos in the vector with a key, the map has the first |
| DebugUtils.ObjectInfoCollection.RemoveObject | src/common/object_info.cpp:60-63 | removes one key from the map of names; keys stay distinct and names non-empty |
| DebugUtils.ObjectInfoCollection.AddObjectName | src/common/object_info.cpp:38-58 | adds or renames one key, or removes it for an empty name |
| DebugUtils.ObjectInfoCollection.LookUpObjectName | src/common/object_info.cpp:83-99 | sets the stored name, if there is one, and nothing else |
| DebugUtils.NamesRenamed | src/common/object_info.cpp:49-53 | renaming in place keeps the keys distinct and changes one name of the map |
| DebugUtils.NamesWithout | src/common/extra_algorithms.h:43-48 | erasing by predicate from the vector removes the key from the map |
| DebugUtils.DebugUtilsData.BeginLabelRegion | src/common/object_info.cpp:173-181 | drops the individual label and pushes the given label as a region of one session; other sessions keep their state |
| DebugUtils.DebugUtilsData.EndLabelRegion | src/common/object_info.cpp:183-196 | drops the individual label and pops a region, if there is one; an unknown session stays unknown |
| DebugUtils.DebugUtilsData.InsertLabel | src/common/object_info.cpp:198-206 | replaces the individual label and keeps the regions |
| DebugUtils.DebugUtilsData.DeleteObject | src/common/object_info.cpp:208-218 | removes the name, and for a session deletes its labels |
| DebugUtils.DebugUtilsData.DeleteSessionLabels | src/common/object_info.cpp:220-220 | deletes one session's labels |
| DebugUtils.DebugUtilsData.LookUpSessionLabels | src/common/object_info.cpp:121-129 | appends the individual label and then the regions from the innermost out |
| DebugUtils.LookUpAfter | src/common/object_info.cpp:121-220 | what a look-up finds after each operation: a label that is begun or inserted in front of the earlier regions from the innermost out, after an end those without the innermost, after a deletion nothing |
| DebugUtils.ExportedAt | src/common/object_info.cpp:121-129 | the labels found, one by one |
| DebugUtils.ApplyElsewhere | src/common/object_info.cpp:149-220 | an operation leaves other sessions alone, and only a begin or an insert makes a session known |
| DebugUtils.RunLeaves | src/common/object_info.cpp:149-206 | after any run without deletions: of the regions below those that its unmatched ends leave, and above them the labels of the begins that no later end matches, in order |
| DebugUtils.RunKeepsBase | src/common/object_info.cpp:149-206 | a run that ends no region it did not begin leaves the regions below it alone |
| DebugUtils.BalancedRestores | src/common/object_info.cpp:149-206 | any balanced run of begins, inserts and ends restores the region stack |
| DebugUtils.IndividualIsLast | src/common/object_info.cpp:149-206 | after any run there is an individual label exactly when the last operation inserted it |
| DebugUtils.DeleteForgets | src/common/object_info.cpp:149-220 | after a deletion a session starts over, whatever came before; a balanced run then ends without regions |
| DebugUtils.SessionsIndependent | src/common/object_info.cpp:149-220 | however the operations of many sessions interleave, deletions included, each session's labels are those of running it alone |
| DebugUtils.InterleavedBalancedRestores | src/common/object_info.cpp:149-206 | so a session whose own operations balance gets its regions back, whatever other sessions do meanwhile |
| DebugUtils.DebugUtilsData.PopulateNamesAndLabels | src/common/object_info.cpp:222-235 | names every object from the map and lists the labels of every session among them |
| DebugUtils.DebugUtilsData.WrapCallbackData | src/common/object_info.cpp:237-278 | either the original data, or the names and labels that PopulateNamesAndLabels gives |
| DebugUtils.WrappedNames | src/common/object_info.cpp:237-278 | each exported object carries its stored name, or its own if none is stored, augmented or not; the message and the objects are kept |
| DebugUtils.WrappedLabels | src/common/object_info.cpp:237-278 | the sessions' labels are exported exactly when something is named at all and an object has a name or is a session with labels, or the caller gave those very labels; otherwise the caller's labels are kept |
| DebugUtils.SomethingToAddIff | src/common/object_info.cpp:237-263 | what counts as something to add, in terms of the names and the labels of each session |
| DebugUtils.AllLabelsLast | src/common/object_info.cpp:222-263 | the labels of the sessions among the objects, in object order, one object more at a time |
| DebugUtils.NoLabelsIff | src/common/object_info.cpp:248-263 | there are no labels to export exactly when no object is a session with labels |
| DebugUtils.LostLabel | src/common/object_info.cpp:241-243 | a session in a label region, with no object named, loses the region |
| DebugUtils.OwnLabelLost | src/common/object_info.cpp:265-277 | a label of the caller's own is kept while nothing is named, and overwritten once its object has a name |
| SearchPaths.SplitJoin | src/loader/manifest_file.cpp:120-146 | splitting at separators undoes joining |
| SearchPaths.AddFilesInPath | src/loader/manifest_file.cpp:120-146 | visits the non-empty entries in order, after one empty visit for a leading separator; both loops end |
| SearchPaths.EntriesVisited | src/loader/manifest_file.cpp:120-146 | joined entries are visited in order; empty ones in between make no visit, and one at the start makes one |
| SearchPaths.CopyIncludedPaths | src/loader/manifest_file.cpp:149-180 | appends each entry, the symbol where it is missing, the relative path and a separator; every read is in range exactly unless a list of directories starts with a separator |
| SearchPaths.EntryText | src/loader/manifest_file.cpp:157-180 | the text of one completed entry, for either slash at its end, for none, for an empty entry and for a file |
| SearchPaths.ListVisits | src/loader/manifest_file.cpp:120-180 | what a search of one copied list visits, for every list |
| SearchPaths.SearchVisits | src/loader/manifest_file.cpp:120-180 | a search of any number of copied lists visits each list's completed directories in turn and nothing else |
| SearchPaths.AllLookedAt | src/loader/manifest_file.cpp:120-180 | of the completed directories of one list none is passed over |
| SearchPaths.VisitsEntriesIff | src/loader/manifest_file.cpp:149-180 | the visits are exactly the completed non-empty entries if and only if the list is not one character, does not start with a separator and has no empty entry inside |
| SearchPaths.LostAndInventedDirectories | src/loader/manifest_file.cpp:149-180 | the list "/" is lost, "a::b" visits a directory it does not name, and what ":a" visits depends on the memory in front of it |
| SearchPaths.ReadDataFilesInSearchPaths | src/loader/manifest_file.cpp:183-253 | visits the override's directories alone, or else the lists in their order of precedence, the extra system directory included; says when a read is out of range |
| SearchPaths.SearchOrder | src/loader/manifest_file.cpp:183-253 | where each place is one directory: configuration, system, extra system, data and home directories in this order with the relative path behind each, or the override alone |
| SearchPaths.AddEnvironmentApiLayers | src/loader/api_layer_interface.cpp:34-54 | appends every entry of the variable, empty ones too, except an empty one at the end |
| SearchPaths.ListedNames | src/loader/api_layer_interface.cpp:34-54 | exactly which names a variable stands for: those it joins, with or without a separator at its end |
| Extensions.GetExtensionProperties | src/loader/manifest_file.cpp:519-534 | merges one manifest's listings in place, one at a time |
| Extensions.MergedLast | src/loader/manifest_file.cpp:519-534 | one listing more raises the version where its name stands, or goes to the end, cut to 127 characters |
| Extensions.MaxVersionIsMax | src/loader/manifest_file.cpp:519-534 | the greatest version listed for a name is listed, and none is greater |
| Extensions.ListingsMerge | src/loader/manifest_file.cpp:519-534 | where names fit, the merged list has every name once at its greatest version |
| Extensions.OrderIndependent | src/loader/manifest_file.cpp:519-534 | the greatest version depends only on which listings there are, not on their order or repetition |
| Extensions.DistinctIffNoCollision | src/loader/manifest_file.cpp:519-534 | for names of any length, merged names stay distinct exactly when no long name's truncation is already there |
| Extensions.OverrideWithRuntime | src/loader/runtime_interface.cpp:335-352 | gives the runtime's version to the names known before, and appends the rest |
| Extensions.OverriddenLast | src/loader/runtime_interface.cpp:335-352 | one runtime extension more replaces the version of a name known before, or goes to the end |
| Extensions.RuntimeWins | src/loader/runtime_interface.cpp:335-352 | with distinct runtime names, each has the runtime's version and appears once |
| Extensions.DistinctIffNotRepeated | src/loader/runtime_interface.cpp:335-352 | names stay distinct exactly when the runtime repeats no name that the layers lack |
| Extensions.RaiseToLoader | src/loader/loader_core.cpp:151-169 | raises or appends each of the loader's own extensions |
| Extensions.RaisedLast | src/loader/loader_core.cpp:151-169 | one loader extension more raises a lower version, or goes to the end |
| Extensions.LoaderRaises | src/loader/loader_core.cpp:151-169 | no version ends below the loader's |
| Extensions.EnumerateInstanceExtensionProperties | src/loader/loader_core.cpp:120-169 | the reported list, from layers, runtime and loader |
| Extensions.LayersInOrder | src/loader/api_layer_interface.cpp:153-186 | the layers are merged in order |
| Extensions.MergedVersions | src/loader/loader_core.cpp:120-169 | its names are distinct and the union of the three; each version is the runtime's or else the greatest of the layers', raised to the loader's |
| Extensions.ReportedNamesIff | src/loader/loader_core.cpp:120-169 | for all inputs, the names reported are those of the layers, cut to fit, of the runtime and of the loader |
| Extensions.ReportedDistinctIff | src/loader/loader_core.cpp:120-169 | every reported name is reported once exactly when no long name collides and the runtime repeats none that the layers lack |
| Extensions.LayerOrderIrrelevant | src/loader/loader_core.cpp:120-169 | rearranging the layers changes no version |
| Extensions.RepeatedNames | src/loader/manifest_file.cpp:528-529 | a long name listed twice, and a name the runtime repeats, are reported twice |
| LoaderPlatform.Platform.Open | src/loader/api_layer_interface.cpp:273-285 | an opened library gets a reference of its own; a failed open changes nothing |
| LoaderPlatform.Platform.Close | src/loader/api_layer_interface.cpp:455-468 | only an open reference may be closed, so none is closed twice |
| LayerSelection.TakeNamed | src/loader/api_layer_interface.cpp:239-255 | the erasing loop moves all explicit manifests of one name, in order, and leaves the others in order |
| LayerSelection.NamedMembers | src/loader/api_layer_interface.cpp:239-255 | the manifests moved are those of the name, and the others stay |
| LayerSelection.NamedConcat | src/loader/api_layer_interface.cpp:239-255 | and they keep their order |
| LayerSelection.SelectLayers | src/loader/api_layer_interface.cpp:201-268 | enables the implicit layers and then the explicit ones by request; all are found exactly when every name is matched; no manifest is lost or used twice |
| LayerSelection.PickedMembers | src/loader/api_layer_interface.cpp:233-268 | an explicit manifest is taken exactly when it is requested and no implicit layer has its name |
| LayerSelection.PickedNamed | src/loader/api_layer_interface.cpp:233-268 | manifests of one name keep their discovery order, and each is taken once however often it is requested |
| LayerSelection.PickedInRequestOrder | src/loader/api_layer_interface.cpp:233-268 | explicit layers come in the order of the first request of their names |
| LayerSelection.ManifestsToReport | src/loader/api_layer_interface.cpp:153-181 | the manifests whose extensions are reported: implicit ones and those the environment enables, in discovery order |
| LayerSelection.EnabledAround | src/loader/api_layer_interface.cpp:157-181 | a manifest that the environment names is reported where it is found, between those before and after it |
| LayerSelection.ReportedAreLoadedIff | src/loader/api_layer_interface.cpp:153-268 | reporting and loading use the same explicit manifests exactly when none that is named shares an implicit layer's name |
| LayerSelection.ReportedNotLoaded | src/loader/api_layer_interface.cpp:153-268 | an explicit manifest with an implicit layer's name, enabled by the environment, is reported and not loaded |
| LayerSelection.LoadLayer | src/loader/api_layer_interface.cpp:272-430 | one attempt: its outcome in every case, and the library stays open exactly when the layer is loaded |
| LayerSelection.LayerLoadsIff | src/loader/api_layer_interface.cpp:272-430 | exactly when a layer loads, and exactly when an attempt aborts the loop |
| LayerSelection.LayerErrors | src/loader/api_layer_interface.cpp:272-430 | what an attempt fails with, in the order in which it can fail |
| LayerSelection.SupportedExtensions | src/loader/api_layer_interface.cpp:412-420 | the names of the manifest's merged extensions |
| LayerSelection.SupportsListed | src/loader/manifest_file.cpp:519-534 | a loaded layer goes by its manifest's name and supports exactly what its manifest lists, cut to the size of a name |
| LayerSelection.DestroyLayers | src/loader/api_layer_interface.cpp:455-468 | closes each layer's library once |
| LayerSelection.LoadEnabled | src/loader/api_layer_interface.cpp:272-430 | the loading loop: which layers load, with their names and extensions, the folded error, and the libraries it owns at every exit |
| LayerSelection.LoadApiLayers | src/loader/api_layer_interface.cpp:190-443 | result and loaded layers, with the names and extensions of their manifests, for every request and every behaviour of the libraries; the open libraries are those of before and the layers' |
| LayerSelection.EnvironmentThenApplication | src/loader/api_layer_interface.cpp:219-268 | whatever names a variable lists, a load enables the implicit layers and then what the environment's names and the application's pick, in this order, and fails for a name that no manifest has |
| LayerSelection.WithoutSelection | src/loader/api_layer_interface.cpp:200-225 | a null array of names is refused; after a failed discovery only the implicit layers are tried |
| LayerSelection.LoadingCases | src/loader/api_layer_interface.cpp:272-443 | an attempt that aborts leaves the layers before it to the caller, a missing name and any other error leave none, and otherwise all that loaded stay |
| LayerSelection.FoldedErrorIs | src/loader/api_layer_interface.cpp:272-430 | after the last load only a missing negotiation function counts as an error, and where nothing loads the last error does |
| LayerSelection.FoldedSuccess | src/loader/api_layer_interface.cpp:272-430 | the folded error is success exactly when nothing was tried or some layer loads and none after it lacks its entry point |
| LayerSelection.SucceedsIff | src/loader/api_layer_interface.cpp:190-443 | exactly when LoadApiLayers succeeds: the names are given, none is missing, no attempt aborts the loop, and nothing was tried or some layer loads and none after it lacks its entry point |
| LayerSelection.MissingNegotiationFails | src/loader/api_layer_interface.cpp:326-334 | a layer without its negotiation function undoes the load of the layer before it |
| LayerSelection.FailureLeavesNone | src/loader/api_layer_interface.cpp:432-443 | a failure leaves loaded layers to the caller only if an attempt aborted the loop |
| LayerSelection.SuccessMatchesAll | src/loader/api_layer_interface.cpp:219-268 | on success some manifest has each name of the environment and each of the application, if both discoveries succeeded |
| LayerSelection.FailedDiscoverySucceeds | src/loader/api_layer_interface.cpp:200-219 | a failed discovery is not looked at again: without implicit layers every request then succeeds |
| LayerSelection.LoadedInOrder | src/loader/api_layer_interface.cpp:272-430 | the loaded layers are the enabled ones that succeeded, each with its own manifest's name and extensions, in the same order |
| LayerChain.CheckSupport | src/loader/loader_instance.cpp:144-178 | succeeds exactly when runtime, loader or a layer supports every requested extension |
| LayerChain.SupportedIff | src/loader/loader_instance.cpp:144-178 | the runtime supports it, or it is XR_EXT_debug_utils, or some layer supports it |
| LayerChain.InstanceCreateInfoManager.Reset | src/loader/loader_instance.cpp:82-90 | the modified list is the original one |
| LayerChain.InstanceCreateInfoManager.FilterOutExtension | src/loader/loader_instance.cpp:106-118 | exactly the first occurrence goes away |
| LayerChain.InstanceCreateInfoManager.FilterOutExtensions | src/loader/loader_instance.cpp:93-104 | the same for each name in turn |
| LayerChain.RemoveFirstCounts | src/loader/loader_instance.cpp:106-118 | filtering removes one occurrence and keeps all others |
| LayerChain.RemoveFirstAt | src/loader/loader_instance.cpp:106-118 | what is left is everything before and after the first occurrence, in order |
| LayerChain.RemoveEachCounts | src/loader/loader_instance.cpp:93-104 | filtering several names removes one occurrence for each |
| LayerChain.FilterForChain | src/loader/loader_instance.cpp:184-197 | debug utils, once, is filtered where the runtime does not support it |
| LayerChain.ChainExtensionsAre | src/loader/loader_instance.cpp:184-197 | everything is passed on, unless the runtime lacks debug utils; then all but its first occurrence is, in order |
| LayerChain.ChainExtensionsCounts | src/loader/loader_instance.cpp:184-197 | every request is passed on as often as it is made, except for one of debug utils where the runtime lacks it |
| LayerChain.ChainExtensionsSupportedIff | src/loader/loader_instance.cpp:144-197 | after the check, the chain receives only extensions that runtime or layers support, exactly unless debug utils is asked for twice and neither does |
| LayerChain.DebugUtilsTwice | src/loader/loader_instance.cpp:144-197 | debug utils requested twice passes the check and still reaches a runtime without it |
| LayerChain.BuildChain | src/loader/loader_instance.cpp:199-239 | node k carries layer k's name, the next node, and the entry points of layer k + 1 or the terminator |
| LayerChain.NodeFacts | src/loader/loader_instance.cpp:210-239 | what node k says, field by field |
| LayerChain.NamesCarried | src/loader/loader_instance.cpp:222-225 | a name of at most 255 characters is carried as it is, and a longer one loses its end |
| LayerChain.ChainCalls | src/loader/loader_instance.cpp:199-247 | the chain is acyclic, and a create call visits the layers in list order, each once, down to the first that does not forward it, or else the terminator |
| LayerChain.ThroughSucceedsIff | src/loader/loader_instance.cpp:199-247 | a call down the layers succeeds exactly when the terminator does and every layer forwards it |
| LayerChain.ThroughResult | src/loader/loader_instance.cpp:199-247 | whose result a call returns: that of the first layer that does not forward it, else that of a failing terminator, else that of the lowest layer that fails after forwarding |
| LayerChain.LookUpsFrom | src/loader/loader_instance.cpp:222-236 | a lookup handed down the chain asks each layer below in order and then the terminator |
| LoaderInit.FirstPairWins | src/loader/loader_properties.cpp:68-72 | of a property that is given twice, the first value counts |
| LoaderInit.LoaderInitData.InitializeProperties | src/loader/loader_init_data.cpp:35-66 | the first properties structure replaces all overrides, those of an earlier call included, or, if any pair is invalid, none |
| LoaderInit.OverridesAre | src/loader/loader_init_data.cpp:35-66 | whatever was installed before, a well-formed properties structure leaves exactly the names it gives, each with its first value; a malformed one changes nothing |
| LoaderInit.SecondCallReplaces | src/loader/loader_init_data.cpp:35-66 | of two calls the second alone counts if its properties are well-formed; if it has none, or malformed ones, those of the first stay |
| LoaderInit.PropertyRead | src/loader/loader_properties.cpp:42-50 | a property then reads as the first value given for it, or as the environment has it |
| LoaderInit.LoaderInitData.Initialize | src/loader/loader_init_data.cpp:16-33 | result and new state for every chain; a failure never takes back an earlier success |
| LoaderInit.AcceptedIff | src/loader/loader_init_data.cpp:16-107 | exactly when a call succeeds: the first properties structure, if any, is well-formed, and where it is required the first platform structure has both pointers |
| LoaderLogging.LoaderLogger.constructor | src/loader/loader_logger.cpp:105-141 | the default recorders, in order |
| LoaderLogging.LoaderLogger.AddLogRecorder | src/loader/loader_logger.cpp:143-146 | appends a recorder |
| LoaderLogging.LoaderLogger.AddLogRecorderForXrInstance | src/loader/loader_logger.cpp:148-152 | records the id for the instance and appends the recorder |
| LoaderLogging.LoaderLogger.RemoveLogRecorder | src/loader/loader_logger.cpp:154-164 | removes every recorder with the id, and the id from every instance |
| LoaderLogging.LoaderLogger.RemoveLogRecordersForXrInstance | src/loader/loader_logger.cpp:166-175 | removes the recorders of one instance's ids, and its record |
| LoaderLogging.KeptDefaults | src/loader/loader_logger.cpp:154-175 | removing messengers' recorders keeps all default recorders in order |
| LoaderLogging.KeptIds | src/loader/loader_logger.cpp:154-175 | and removes exactly those ids |
| LoaderLogging.KeptMembers | src/loader/loader_logger.cpp:154-175 | a recorder stays exactly when its id is not removed |
| LoaderLogging.KeptAppended | src/loader/loader_logger.cpp:154-175 | those that stay keep their order |
| RuntimeInterfaces.LoadsIffCompatible | src/loader/runtime_interface.cpp:52-224 | exactly the runtimes of these versions load, and where the platform requires initialization only after it was done and if the runtime accepts it |
| RuntimeInterfaces.RuntimeErrors | src/loader/runtime_interface.cpp:52-224 | what loading a runtime fails with, in the order in which it can fail |
| RuntimeInterfaces.FirstLoadingIff | src/loader/runtime_interface.cpp:247-255 | a runtime is found exactly when one of those discovered loads |
| RuntimeInterfaces.RuntimeLoadCases | src/loader/runtime_interface.cpp:226-263 | a loaded runtime stays; otherwise a missing initialization, a failed discovery or no runtime that loads are errors, and else the first that loads is taken |
| RuntimeInterfaces.RuntimeInterface.CreateInstance | src/loader/runtime_interface.cpp:355-378 | a table is added exactly when the runtime creates an instance |
| RuntimeInterfaces.RuntimeInterface.DestroyInstance | src/loader/runtime_interface.cpp:380-396 | the instance's table goes away |
| RuntimeInterfaces.RuntimeInterface.TrackDebugMessenger | src/loader/runtime_interface.cpp:398-402 | the messenger belongs to the instance |
| RuntimeInterfaces.RuntimeInterface.ForgetDebugMessenger | src/loader/runtime_interface.cpp:404-409 | the messenger is forgotten |
| Loader.Loader.UnloadRuntime | src/loader/runtime_interface.cpp:265-317 | no runtime is left and its library is closed |
| Loader.Loader.TryLoadingSingleRuntime | src/loader/runtime_interface.cpp:52-224 | the result in every case; on failure the library is closed again, on success the new runtime owns it |
| Loader.Loader.LoadRuntime | src/loader/runtime_interface.cpp:226-263 | keeps a loaded runtime, or loads the first that works, or reports that none is available; the extensions of the runtime that is then loaded |
| Loader.Loader.Initialize | src/loader/loader_init_data.cpp:109-120 | refused, with nothing changed, while an instance is active; otherwise no runtime and no open library is left, and result and new data are those of the chain |
| Loader.Loader.Enumerate | src/loader/loader_core.cpp:123-142 | the result in every case: a loaded runtime stays, or the first that works is loaded, with its extensions |
| Loader.Loader.TermCreateInstance | src/loader/loader_core.cpp:410-429 | needs a loaded runtime; gives it the extensions it received and adds the instance's table on success |
| Loader.Loader.TermDestroyInstance | src/loader/loader_core.cpp:431-438 | removes the instance's recorders and its table |
| Loader.Loader.TermCreateDebugUtilsMessenger | src/loader/loader_core.cpp:632-658 | needs the instance's table; on success recorder, id and tracking are added together |
| Loader.Loader.TermDestroyDebugUtilsMessenger | src/loader/loader_core.cpp:660-676 | needs a tracked messenger; removes it from all three containers |
| Loader.Loader.CreateDebugUtilsMessenger | src/loader/loader_core.cpp:479-499 | result and tracked messengers for every answer of layers and runtime; the containers stay in step |
| Loader.Loader.DestroyDebugUtilsMessenger | src/loader/loader_core.cpp:502-522 | the same for destruction, for messengers of the application's own |
| Loader.Loader.CallDown | src/loader/loader_instance.cpp:199-247 | one call of the chain: result and handle for every behaviour of the layers below, and the calls made are those of the list of next-infos |
| Loader.CreateCallsAre | src/loader/loader_instance.cpp:199-261 | call by call: each layer down to the first that does not forward is called once, in order and under its own name, and the terminator if all forward |
| Loader.Loader.CallChain | src/loader/loader_instance.cpp:184-261 | the runtime is given the filtered extensions, through every layer that forwards, once and in list order; the result for every behaviour of layers and runtime |
| Loader.Loader.CreateLoaderInstance | src/loader/loader_instance.cpp:137-270 | result and calls in every case, none if the support check fails; a failure destroys the layers it was given |
| Loader.Loader.LoadAndCreate | src/loader/loader_core.cpp:247-278 | the result and the created layers are those of the request: runtime, layers, support check and chain in this order; at every exit the open libraries are the runtime's and the layers', each owned once |
| Loader.Loader.CreateInstance | src/loader/loader_core.cpp:210-313 | refused while an instance is active; otherwise result and whether an instance is active are exactly those of the request, a failure before that leaves no instance, no runtime and no open library, and an active instance has the layers, the handle and the table of the request |
| LoaderStates.CreatesIff | src/loader/loader_core.cpp:247-278 | everything up to making the instance active succeeds exactly when a runtime is loaded or loads, the layers load, each requested extension is supported, every layer forwards the call and the runtime accepts it |
| LoaderStates.CreationCases | src/loader/loader_core.cpp:247-278 | the first step that fails decides the result: the runtime, the layers, the support check, the chain; and the extensions the runtime is given |
| LoaderStates.RequestedReachRuntime | src/loader/loader_instance.cpp:184-247 | when a create succeeds, every requested extension has reached the runtime as often as it was requested, except for one of debug utils where the runtime does not support it |
| LoaderStates.GivenExtensionsSupportedIff | src/loader/loader_instance.cpp:144-247 | the runtime is given only extensions that it or a loaded layer supports, exactly unless debug utils is asked for twice and neither does |
| LoaderStates.StrandsIff | src/loader/loader_core.cpp:247-298 | a create fails and leaves its instance active exactly when all of that goes well, a messenger is asked for, and a layer fails that call or the runtime refuses it |
| LoaderStates.RefusedMessengerStrands | src/loader/loader_core.cpp:281-298 | a request for which it does |
| Loader.StrandedInstance | src/loader/loader_core.cpp:243-298 | after that request the application has no handle to destroy: whatever it calls then, the instance stays active and a further create is refused |
| Loader.CreateAgain | src/loader/loader_core.cpp:243-246 | from every state with an active instance, no run of calls that does not destroy it lets another create succeed |
| LoaderStates.ActiveUntilDestroyed | src/loader/loader_core.cpp:80-522 | while nobody destroys the active instance, it and its runtime stay as they are under every run of calls |
| LoaderStates.InitializeStepIs | src/loader/loader_init_data.cpp:109-120 | initialization is refused while an instance is active; otherwise it unloads the runtime, takes over the overrides even where it fails, and never takes back an earlier success |
| LoaderStates.SecondInitializeReplaces | src/loader/loader_init_data.cpp:35-120 | in a run of two initializations, the properties of the second replace those of the first |
| LoaderStates.EnumerateStepIs | src/loader/loader_core.cpp:123-142 | listing extensions loads a runtime if none is loaded, and changes nothing else |
| LoaderStates.CreateStepIs | src/loader/loader_core.cpp:210-313 | result and new state of every create, with its messenger, and the codes of the two refusals |
| LoaderStates.MessengerMade | src/loader/loader_core.cpp:479-658 | result and records of every attempt to make a messenger: it is recorded exactly where it reaches a runtime that makes it |
| LoaderStates.CreateMessengerStepIs | src/loader/loader_core.cpp:479-499 | result and new state of a messenger call, in the layers and with the table of the active instance |
| LoaderStates.RemovedOne | src/loader/loader_core.cpp:660-676 | one messenger goes from all three containers, and nothing else does |
| LoaderStates.UnloadedIs | src/loader/loader_core.cpp:431-438 | the destroyed instance's recorders and record go if the call reaches the terminator; no messenger is tracked without a runtime |
| LoaderStates.DestroyMessengerStepIs | src/loader/loader_core.cpp:502-522 | destroying a messenger removes it if the call reaches the runtime |
| LoaderStates.DestroyStepIs | src/loader/loader_core.cpp:316-356 | destroying the instance removes its default messenger if that call reaches the runtime, and leaves no instance and no runtime in every case |
| Loader.Loader.DestroyInstance | src/loader/loader_core.cpp:316-356 | leaves no instance, no runtime, no open library and every default recorder in order; the messenger containers stay in step exactly when the call reaches the terminator or no messenger is left |
| LoaderStates.SyncedAdd | src/loader/loader_core.cpp:651-654 | adding a messenger keeps recorders, recorded ids and tracked messengers the same set |
| LoaderStates.SyncedRemove | src/loader/loader_core.cpp:665-666 | so does removing one |
| LoaderStates.SyncedDestroy | src/loader/loader_core.cpp:431-436 | and destroying the instance they all belong to empties all three |
| LoaderStates.SyncedWithoutRuntimeIff | src/loader/loader_core.cpp:338-353 | if the destroy call is swallowed, the containers stay in step exactly when no messenger was left |
| LoaderStates.SwallowedDestroy | src/loader/loader_core.cpp:338-353 | with one messenger left, they fall out of step |
| LoaderStates.StaysInSyncIff | src/loader/loader_core.cpp:80-676 | a call leaves recorders, recorded ids and tracked messengers in step exactly unless a layer swallows a destroy call while some messenger is left; default recorders stay |
| LoaderStates.KeepsBacked | src/loader/loader_core.cpp:80-676 | every call keeps an active instance backed by a runtime and every tracked messenger its own |
| LoaderStates.InSyncThroughoutIff | src/loader/loader_core.cpp:80-676 | a run keeps the containers in step throughout exactly if it has no such destroy call |
| LoaderStates.OneLayerSwallows | src/loader/loader_core.cpp:316-353 | a create, a messenger and a swallowed destroy, after which they are out of step |
| Loader.SwallowedInstance | src/loader/loader_core.cpp:316-353 | that run on the classes: instance and runtime are gone, and the recorder stays |
| Loader.Loader.Perform | src/loader/loader_core.cpp:80-522 | every call of the classes has exactly the result and the effect of the state machine, and keeps the invariants: one active instance at most, with a loaded runtime that has its table and no other, and each open library owned once |
| Loader.Loader.Run | src/loader/loader_core.cpp:80-676 | every sequence of calls, with any answers, ends in the state that the state machine gives, and keeps the invariants; default recorders stay in order, and the messenger containers stay in step if destroy calls are forwarded |
| JniObjects.CopyAssignedNullIff | src/external/jnipp/jnipp.cpp:343-363 | assigning null makes the target null exactly when it was null before; otherwise its old handle stays |
| JniObjects.CopyAssignMisusesIff | src/external/jnipp/jnipp.cpp:343-363 | copy assignment from a source that JNI accepts hands it a deleted reference exactly when the source is a temporary on the target's own class reference |
| JniObjects.Object.FromRef | src/external/jnipp/jnipp.cpp:314-325 | a temporary keeps the given reference; any other object owns a new global one |
| JniObjects.Object.Copy | src/external/jnipp/jnipp.cpp:301-305 | the copy owns a new reference of its own; JNI is misused exactly if it does not accept the handle of the source |
| JniObjects.Object.Move | src/external/jnipp/jnipp.cpp:307-312 | all three fields move |
| JniObjects.Object.Destroy | src/external/jnipp/jnipp.cpp:327-341 | deletes what the object owns, each reference once |
| JniObjects.Object.CopyAssign | src/external/jnipp/jnipp.cpp:343-363 | the old references are deleted before the source is looked at; fields and environment for every source |
| JniObjects.Object.MoveAssign | src/external/jnipp/jnipp.cpp:370-393 | the old references are deleted and the source's fields move, unless the handles are equal |
| JniObjects.Object.GetClass | src/external/jnipp/jnipp.cpp:640-652 | makes the class reference at most once; JNI is misused exactly if it does not accept the handle or that is null |
| JniObjects.ConstructionIs | src/external/jnipp/jnipp.cpp:297-325 | every way to make an object, field by field, with the references there are afterwards |
| JniObjects.OperationIs | src/external/jnipp/jnipp.cpp:327-652 | the same for assignment, getClass and destruction: nothing happens between equal handles, and what the target owned goes first |
| JniObjects.KeepsOwnedOnce | src/external/jnipp/jnipp.cpp:297-393 | every operation, on any arguments, keeps each live global reference owned by exactly one field of exactly one object |
| JniObjects.MisusesIff | src/external/jnipp/jnipp.cpp:297-393 | an operation misuses JNI exactly when its caller can see it coming; in particular no deletion ever does |
| JniObjects.RunMisusesIff | src/external/jnipp/jnipp.cpp:297-652 | a run misuses JNI exactly when one of its operations is unsafe in the state before it; every run keeps ownership |
| JniObjects.KeepsIff | src/external/jnipp/jnipp.cpp:297-393 | where JNI accepts every handle, it still does after an operation exactly if a temporary is made from an accepted reference and no reference goes that another object holds, null copied over an owner included |
| JniObjects.UnsafeIff | src/external/jnipp/jnipp.cpp:297-652 | where JNI accepts every handle, it is misused exactly by a caller's own arguments and by assigning an object a temporary on its own class |
| JniObjects.CarefulRunIff | src/external/jnipp/jnipp.cpp:297-652 | every state of a run is clean, with no handle dangling and JNI not misused, exactly if every operation is careful in the state before it |
| JniObjects.ClassTemporary | src/external/jnipp/jnipp.cpp:654-667 | a temporary on a class reference, made and dropped, is careful in every state and leaves it as it was |
| JniObjects.NothingLeaks | src/external/jnipp/jnipp.cpp:327-341 | once all objects are gone, so are all global references |
| JniObjects.AssignOwnClass | src/external/jnipp/jnipp.cpp:343-363 | three safe operations after which assigning an object a temporary on its own class misuses JNI |
| JniObjects.CopyAfterNull | src/external/jnipp/jnipp.cpp:301-363 | three safe operations after which copying an object that null was assigned to misuses JNI |
| JniObjects.Program.Perform | src/external/jnipp/jnipp.cpp:297-393 | every operation of the classes has exactly the effect of the state machine that these lemmas are about |
| JniObjects.Program.Run | src/external/jnipp/jnipp.cpp:297-652 | and so has every sequence of operations |
| JniObjects.Program.DestroyAll | src/external/jnipp/jnipp.cpp:327-341 | from every reachable state, destroying all objects leaves no global reference and does not misuse JNI |
| JniStrings.ToJString | src/external/jnipp/jnipp.cpp:135-158 | the encoder of section 2.1 of RFC 2781, unit for unit |
| JniStrings.EncodedIs | src/external/jnipp/jnipp.cpp:135-158 | a character is one unit, or above 0xFFFF a high and a low unit that carry ten bits each; a negative one wraps |
| JniStrings.DecodesEncoded | src/external/jnipp/jnipp.cpp:135-158 | the decoder of section 2.2 of RFC 2781 recovers every string of Unicode scalar values |
| JniStrings.DecodedAreScalars | src/external/jnipp/jnipp.cpp:135-158 | and produces nothing but scalar values |
| JniStrings.RoundTripIff | src/external/jnipp/jnipp.cpp:135-158 | so a string survives the encoder exactly when it consists of scalar values |
| JniStrings.ToWString | src/external/jnipp/jnipp.cpp:106-130 | what the code makes of any units, its reading of the high unit twice included |
| JniStrings.HighIsMisread | src/external/jnipp/jnipp.cpp:113-124 | what a high unit and the unit after it become, whatever that is; at the end a high unit becomes nothing |
| JniStrings.WidenedIff | src/external/jnipp/jnipp.cpp:106-158 | for every string, it undoes the encoder exactly when each character is a single unit and not a high one |
| JniStrings.NextIsLost | src/external/jnipp/jnipp.cpp:117-124 | even where a lone high unit is read as itself, the unit after it is lost |
| JniStrings.SupplementaryIsLost | src/external/jnipp/jnipp.cpp:117-124 | U+10000 comes back as a negative number |

## Left out

- IEEE rounding, infinities and NaN: the maths is over exact reals. Square roots are functions that are total; a theorem that
  relies on a root exhibits it, because reals carry no completeness axiom here.
- The trigonometric constructors and `CreateProjectionFov`: tangents are inputs.
- Lerp, decay, normalisation, lengths, cross products and `CreateOffsetScaleForBounds` in `xr_linear.h`: each is settled by its one line.
- Aliasing of out-parameters in `xr_linear.h`: results are returned, so a call that overwrites its own input is not captured.
- `XrMatrix4x4f_Invert` and `TransformVector3f` with a zero divisor: floating point gives infinities there, reals give nothing.
- File system, registry, environment, dynamic loading and JSON: found manifests, variables, library behaviours and their answers are
  arbitrary inputs. Version parsing and manifest validation are not modelled.
- Null-pointer checks of the API entry points, the two-call size protocol of the enumerations and the dispatch of names in
  `LoaderXrGetInstanceProcAddr`: each is settled by reading one branch.
- What stands in memory in front of a string that `CopyIncludedPaths` reads is an arbitrary character.
- Windows and macOS search paths, the Android broker and assets, JVM detection and the rest of jnipp.
- Log formatting, stream and logcat output, user callbacks, and the messages sent to recorders.
- Generated dispatch tables and trampolines: a table is reduced to whether the runtime has the debug-utils functions.
- Threads: the application is assumed to call the loader from one thread at a time. The loader's global lock is taken only
  by the two enumerations, `xrCreateInstance` and `xrDestroyInstance` (loader_core.cpp, lines 93, 127, 237 and 325), and the
  extension enumeration gives it up before its merge loop; `xrInitializeLoaderKHR` and the messenger calls take none.
  jnipp's threads are attached.
- Exceptions and exhausted memory, except that `NewGlobalRef` may return null.
- A layer whose negotiation leaves `createApiLayerInstance` null: the source does not check that pointer before it calls it
  (api_layer_interface.cpp, line 355, and loader_instance.cpp, line 246), and here every loaded layer has one.
- Loader.Loader.CreateInstance: layers are assumed to return the terminator's handles, and an application to pass live handles of its own; other handles are outside the API's contract.
- Loader.Loader.DestroyDebugUtilsMessenger: the runtime's own result is not modelled, because nothing depends on it.
- LoaderLogging.LoaderLogger.RemoveLogRecorder: the order in which the instances are visited is left open, because the result does not depend on it.
